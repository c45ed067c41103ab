/**
 One match record of the table-hockey dataset, the masks the dashboard's
 queries are built from, and the shared win rule: a player wins a record when
 the goals of the slot they occupy exceed the other slot's goals.
 */
module Matches {
  import opened Seqs

  /** A calendar date; the queries only look at the year. */
  datatype Date = Date(year: int, month: int, day: int)

  /** A cleaned row: both players are present. Stage and Overtime are the table's raw strings. */
  datatype Match = Match(date: Date, player1: string, player2: string,
                         goals1: int, goals2: int, stage: string, overtime: string)
  {
    predicate Involves(p: string) { player1 == p || player2 == p }

    /** The record has `p` in both slots (not expected in the match table). */
    predicate IsSelfMatch(p: string) { player1 == p && player2 == p }

    /** The goals of the slot `p` occupies (the first slot when it holds `p`). */
    function GoalsFor(p: string): int { if player1 == p then goals1 else goals2 }

    /** The goals of the other slot. */
    function GoalsAgainst(p: string): int { if player1 == p then goals2 else goals1 }
  }

  /** No record of `s` has `p` in both slots. */
  predicate NoSelfMatch(s: seq<Match>, p: string)
  {
    forall m :: m in s ==> !m.IsSelfMatch(p)
  }

  // Masks over a record, each a column comparison of the source.

  function PlaysIn(p: string): Match -> bool { (m: Match) => m.Involves(p) }
  function InStage(st: string): Match -> bool { (m: Match) => m.stage == st }
  function AsFirst(p: string): Match -> bool { (m: Match) => m.player1 == p }
  function AsSecond(p: string): Match -> bool { (m: Match) => m.player2 == p }
  function WonAsFirst(p: string): Match -> bool { (m: Match) => m.player1 == p && m.goals1 > m.goals2 }
  function WonAsSecond(p: string): Match -> bool { (m: Match) => m.player2 == p && m.goals2 > m.goals1 }
  function LostAsFirst(p: string): Match -> bool { (m: Match) => m.player1 == p && m.goals1 < m.goals2 }
  function LostAsSecond(p: string): Match -> bool { (m: Match) => m.player2 == p && m.goals2 < m.goals1 }
  function Level(): Match -> bool { (m: Match) => m.goals1 == m.goals2 }

  // Columns summed by the source.

  function Goals1(): Match -> int { (m: Match) => m.goals1 }
  function Goals2(): Match -> int { (m: Match) => m.goals2 }
  function TotalGoals(): Match -> int { (m: Match) => m.goals1 + m.goals2 }

  // The shared counting rule, applied slot by slot as the source does.

  /**
   Records `p` won from the first slot plus records `p` won from the second
   slot. No record is won from both slots, so this never exceeds the number of
   records `p` plays in.
   */
  function Wins(s: seq<Match>, p: string): (n: nat)
    ensures n <= |Filter(s, PlaysIn(p))|
  {
    FilterDisjointCount(s, WonAsFirst(p), WonAsSecond(p), PlaysIn(p));
    |Filter(s, WonAsFirst(p))| + |Filter(s, WonAsSecond(p))|
  }

  /** Records `p` lost from the first slot plus records `p` lost from the second slot; at most `p`'s records. */
  function Losses(s: seq<Match>, p: string): (n: nat)
    ensures n <= |Filter(s, PlaysIn(p))|
  {
    FilterDisjointCount(s, LostAsFirst(p), LostAsSecond(p), PlaysIn(p));
    |Filter(s, LostAsFirst(p))| + |Filter(s, LostAsSecond(p))|
  }

  /** Records with equal goals on both sides; none exactly when every record has a winner. */
  function LevelCount(s: seq<Match>): (n: nat)
    ensures n <= |s|
    ensures n == 0 <==> forall m :: m in s ==> m.goals1 != m.goals2
  {
    var level := Filter(s, Level());
    assert |level| > 0 ==> level[0] in level;
    |level|
  }

  /** Goals of `p`'s slot, summed over the records where `p` is first and where `p` is second. */
  function Scored(s: seq<Match>, p: string): (goals: int)
    ensures (forall m :: m in s ==> !m.Involves(p)) ==> goals == 0
  {
    NotPlayingSelectsNothing(s, p);
    Sum(Filter(s, AsFirst(p)), Goals1()) + Sum(Filter(s, AsSecond(p)), Goals2())
  }

  /** Goals of the opposite slot, summed the same way. */
  function Conceded(s: seq<Match>, p: string): (goals: int)
    ensures (forall m :: m in s ==> !m.Involves(p)) ==> goals == 0
  {
    NotPlayingSelectsNothing(s, p);
    Sum(Filter(s, AsFirst(p)), Goals2()) + Sum(Filter(s, AsSecond(p)), Goals1())
  }

  lemma NotPlayingSelectsNothing(s: seq<Match>, p: string)
    ensures (forall m :: m in s ==> !m.Involves(p)) ==> Filter(s, AsFirst(p)) == [] && Filter(s, AsSecond(p)) == []
  {
    if forall m :: m in s ==> !m.Involves(p) {
      FilterNone(s, AsFirst(p));
      FilterNone(s, AsSecond(p));
    }
  }

  // Reference definitions: the result of one record from `p`'s point of view.

  function Won(p: string): Match -> bool { (m: Match) => m.Involves(p) && m.GoalsFor(p) > m.GoalsAgainst(p) }
  function Lost(p: string): Match -> bool { (m: Match) => m.Involves(p) && m.GoalsFor(p) < m.GoalsAgainst(p) }
  function Drew(p: string): Match -> bool { (m: Match) => m.Involves(p) && m.GoalsFor(p) == m.GoalsAgainst(p) }
  function GoalsForOf(p: string): Match -> int { (m: Match) => m.GoalsFor(p) }
  function GoalsAgainstOf(p: string): Match -> int { (m: Match) => m.GoalsAgainst(p) }

  /** Without self-matches the slot-by-slot win count is the number of records `p` won. */
  lemma {:induction false} WinsAreWonRecords(s: seq<Match>, p: string)
    requires NoSelfMatch(s, p)
    ensures Wins(s, p) == |Filter(s, Won(p))|
  {
    if |s| > 0 {
      WinsAreWonRecords(s[1..], p);
    }
  }

  /** Without self-matches the slot-by-slot loss count is the number of records `p` lost. */
  lemma {:induction false} LossesAreLostRecords(s: seq<Match>, p: string)
    requires NoSelfMatch(s, p)
    ensures Losses(s, p) == |Filter(s, Lost(p))|
  {
    if |s| > 0 {
      LossesAreLostRecords(s[1..], p);
    }
  }

  /** On records that all involve `p`, the level records are exactly `p`'s draws. */
  lemma {:induction false} LevelAreDrawnRecords(s: seq<Match>, p: string)
    requires forall m :: m in s ==> m.Involves(p)
    ensures LevelCount(s) == |Filter(s, Drew(p))|
  {
    FilterCongruent(s, Level(), Drew(p));
  }

  /** Every record involving `p` is exactly one of won, lost or drawn for `p`. */
  lemma {:induction false} OutcomesPartition(s: seq<Match>, p: string)
    requires forall m :: m in s ==> m.Involves(p)
    ensures |Filter(s, Won(p))| + |Filter(s, Lost(p))| + |Filter(s, Drew(p))| == |s|
  {
    if |s| > 0 {
      OutcomesPartition(s[1..], p);
    }
  }

  /**
   Without self-matches, in records that all involve `p`: won, lost and level
   records add up to all records.
   */
  lemma OutcomeCountsBalance(s: seq<Match>, p: string)
    requires forall m :: m in s ==> m.Involves(p)
    requires NoSelfMatch(s, p)
    ensures Wins(s, p) + Losses(s, p) + LevelCount(s) == |s|
  {
    WinsAreWonRecords(s, p);
    LossesAreLostRecords(s, p);
    LevelAreDrawnRecords(s, p);
    OutcomesPartition(s, p);
  }

  /** Without self-matches the slot-by-slot goal sums are the sums of `p`'s own and opposing goals. */
  lemma {:induction false} GoalSumsFromPerspective(s: seq<Match>, p: string)
    requires forall m :: m in s ==> m.Involves(p)
    requires NoSelfMatch(s, p)
    ensures Scored(s, p) == Sum(s, GoalsForOf(p))
    ensures Conceded(s, p) == Sum(s, GoalsAgainstOf(p))
  {
    if |s| > 0 {
      GoalSumsFromPerspective(s[1..], p);
      var m := s[0];
      assert m in s && m.Involves(p) && !m.IsSelfMatch(p);
      if m.player1 == p {
        SumCons(m, Filter(s[1..], AsFirst(p)), Goals1());
        SumCons(m, Filter(s[1..], AsFirst(p)), Goals2());
      } else {
        assert Filter(s, AsFirst(p)) == Filter(s[1..], AsFirst(p));
        assert Filter(s, AsSecond(p)) == [m] + Filter(s[1..], AsSecond(p));
        SumCons(m, Filter(s[1..], AsSecond(p)), Goals1());
        SumCons(m, Filter(s[1..], AsSecond(p)), Goals2());
      }
    }
  }

  /** Without self-matches, goals scored plus goals conceded is all goals of the records. */
  lemma {:induction false} GoalsAddUp(s: seq<Match>, p: string)
    requires forall m :: m in s ==> m.Involves(p)
    requires NoSelfMatch(s, p)
    ensures Scored(s, p) + Conceded(s, p) == Sum(s, TotalGoals())
  {
    GoalSumsFromPerspective(s, p);
    PerspectiveGoalsAddUp(s, p);
  }

  lemma {:induction false} PerspectiveGoalsAddUp(s: seq<Match>, p: string)
    ensures Sum(s, GoalsForOf(p)) + Sum(s, GoalsAgainstOf(p)) == Sum(s, TotalGoals())
  {
    if |s| > 0 {
      PerspectiveGoalsAddUp(s[1..], p);
    }
  }

  /**
   In records between two different players `a` and `b`, each record is a win
   for exactly one of them or level.
   */
  lemma {:induction false} PairOutcomesBalance(s: seq<Match>, a: string, b: string)
    requires a != b
    requires forall m :: m in s ==> (m.player1 == a && m.player2 == b) || (m.player1 == b && m.player2 == a)
    ensures Wins(s, a) + Wins(s, b) + LevelCount(s) == |s|
  {
    if |s| > 0 {
      PairOutcomesBalance(s[1..], a, b);
    }
  }
}
