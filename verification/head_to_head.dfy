/**
 The "Head-to-Head Analysis" page: the per-year win and draw rates of two
 players against each other, and the list of their games in one clicked year.
 */
module HeadToHead {
  import opened Seqs
  import opened Matches

  /** The first year of the chart's x axis. */
  const FirstYear: int := 2010

  /**
   The record is a game between `a` and `b`, in either slot order. For two
   different players that is a record involving both of them.
   */
  predicate IsPairing(m: Match, a: string, b: string): (r: bool)
    ensures r ==> m.Involves(a) && m.Involves(b)
    ensures a != b ==> (r <==> m.Involves(a) && m.Involves(b))
  {
    (m.player1 == a && m.player2 == b) || (m.player1 == b && m.player2 == a)
  }

  function Pairing(a: string, b: string): Match -> bool { (m: Match) => IsPairing(m, a, b) }
  function InYear(y: int): Match -> bool { (m: Match) => m.date.year == y }
  function PairingInYear(a: string, b: string, y: int): Match -> bool
  {
    (m: Match) => m.date.year == y && IsPairing(m, a, b)
  }

  /** A count as a percentage of `total`, or zero when there are no games. */
  function Rate(count: int, total: nat): (r: real)
    ensures total == 0 ==> r == 0.0
    ensures total > 0 ==> r * total as real == 100.0 * count as real
  {
    if total > 0 then (count as real / total as real) * 100.0 else 0.0
  }

  /**
   One bar of the chart: the year's game count, wins of each side and draws.
   The three rates are derived from them.
   */
  datatype YearStats = YearStats(year: int, total: nat, winsA: nat, winsB: nat, draws: int)
  {
    /** The first player's win rate: wins as a percentage of the year's games, 0 without games. */
    function RateA(): (r: real)
      ensures total == 0 ==> r == 0.0
      ensures total > 0 ==> r * total as real == 100.0 * winsA as real
    {
      Rate(winsA, total)
    }

    /** The second player's win rate. */
    function RateB(): (r: real)
      ensures total == 0 ==> r == 0.0
      ensures total > 0 ==> r * total as real == 100.0 * winsB as real
    {
      Rate(winsB, total)
    }

    /** The draw rate. */
    function DrawRate(): (r: real)
      ensures total == 0 ==> r == 0.0
      ensures total > 0 ==> r * total as real == 100.0 * draws as real
    {
      Rate(draws, total)
    }

    /** The same bar seen from the other player. */
    function Swapped(): YearStats
    {
      YearStats(year, total, winsB, winsA, draws)
    }
  }

  /** The three rates of a year with games add up to 100; a year without games has all rates 0. */
  predicate RatesConsistent(e: YearStats)
  {
    && (e.total == 0 ==> e.RateA() == 0.0 && e.RateB() == 0.0 && e.DrawRate() == 0.0)
    && (e.total > 0 ==> e.RateA() + e.RateB() + e.DrawRate() == 100.0)
  }

  lemma {:induction false} RatesAddUp(wa: int, wb: int, d: int, t: nat)
    requires t > 0 && wa + wb + d == t
    ensures Rate(wa, t) + Rate(wb, t) + Rate(d, t) == 100.0
  {
    var ra, rb, rd := Rate(wa, t), Rate(wb, t), Rate(d, t);
    var tr := t as real;
    var pa, pb, pd := ra * tr, rb * tr, rd * tr;
    assert pa + pb + pd == 100.0 * tr;
    Distribute(ra, rb, rd, tr);
    Cancel(ra + rb + rd, 100.0, tr);
  }

  lemma Distribute(x: real, y: real, z: real, t: real)
    ensures (x + y + z) * t == x * t + y * t + z * t
  {
  }

  lemma Cancel(x: real, y: real, t: real)
    requires t > 0.0 && x * t == y * t
    ensures x == y
  {
    assert (x - y) * t == 0.0;
  }

  /** A bar whose wins and draws account for all its games has consistent rates. */
  lemma {:induction false} BalancedBarRates(e: YearStats)
    requires e.winsA + e.winsB + e.draws == e.total
    ensures RatesConsistent(e)
  {
    if e.total > 0 {
      RatesAddUp(e.winsA, e.winsB, e.draws, e.total);
    }
  }

  /**
   The bar for year `y`, computed from the pair's games `pairs`: draws are
   whatever is left of the games after both sides' wins. When `pairs` are games
   between two different players, each side's wins are the games it won from its
   own side and the draws are the level games.
   */
  function YearEntry(pairs: seq<Match>, a: string, b: string, y: int): (e: YearStats)
    ensures e.year == y
    ensures e.winsA + e.winsB + e.draws == e.total
    ensures (a != b && forall m :: m in pairs ==> IsPairing(m, a, b)) ==>
      var games := Filter(pairs, InYear(y));
      && e.winsA == |Filter(games, Won(a))|
      && e.winsB == |Filter(games, Won(b))|
      && e.draws == LevelCount(games)
  {
    var games := Filter(pairs, InYear(y));
    var total := |games|;
    var winsA := Wins(games, a);
    var winsB := Wins(games, b);
    PairGamesOutcomes(pairs, games, a, b);
    YearStats(y, total, winsA, winsB, total - winsA - winsB)
  }

  /**
   Among games between two different players, each side's slot-by-slot wins
   are the games it won, and the rest are level.
   */
  lemma PairGamesOutcomes(pairs: seq<Match>, games: seq<Match>, a: string, b: string)
    requires forall m :: m in games ==> m in pairs
    ensures (a != b && forall m :: m in pairs ==> IsPairing(m, a, b)) ==>
      && Wins(games, a) == |Filter(games, Won(a))|
      && Wins(games, b) == |Filter(games, Won(b))|
      && Wins(games, a) + Wins(games, b) + LevelCount(games) == |games|
  {
    if a != b && forall m :: m in pairs ==> IsPairing(m, a, b) {
      assert forall m :: m in games ==> IsPairing(m, a, b);
      WinsAreWonRecords(games, a);
      WinsAreWonRecords(games, b);
      PairOutcomesBalance(games, a, b);
    }
  }

  /** The number of bars for an end year: one per year from FirstYear on, none before. */
  function YearCount(endYear: int): nat
  {
    if endYear < FirstYear then 0 else endYear - FirstYear + 1
  }

  /** The bars of `count` consecutive years starting at `from`, appended year by year. */
  function Bars(pairs: seq<Match>, a: string, b: string, from: int, count: nat): (bars: seq<YearStats>)
    ensures |bars| == count
    ensures forall i :: 0 <= i < count ==> bars[i] == YearEntry(pairs, a, b, from + i)
    decreases count
  {
    if count == 0 then []
    else
      var earlier := Bars(pairs, a, b, from, count - 1);
      var bars := earlier + [YearEntry(pairs, a, b, from + count - 1)];
      assert forall i :: 0 <= i < count - 1 ==> bars[i] == earlier[i];
      bars
  }

  /** The chart series of `a` against `b`, one bar per year from FirstYear to `endYear`. */
  function Series(ms: seq<Match>, a: string, b: string, endYear: int): (series: seq<YearStats>)
    ensures |series| == YearCount(endYear)
    ensures |series| == 0 <==> endYear < FirstYear
    ensures |series| > 0 ==> series[|series| - 1].year == endYear
    ensures forall i :: 0 <= i < |series| ==> series[i].year == FirstYear + i
    ensures forall i :: 0 <= i < |series| ==> series[i].winsA + series[i].winsB + series[i].draws == series[i].total
  {
    Bars(Filter(ms, Pairing(a, b)), a, b, FirstYear, YearCount(endYear))
  }

  /** Every bar of the series has rates adding up to 100, or all 0 in a year without games. */
  lemma SeriesRatesConsistent(ms: seq<Match>, a: string, b: string, endYear: int)
    ensures var series := Series(ms, a, b, endYear);
      forall i :: 0 <= i < |series| ==> RatesConsistent(series[i])
  {
    var series := Series(ms, a, b, endYear);
    forall i | 0 <= i < |series|
      ensures RatesConsistent(series[i])
    {
      BalancedBarRates(series[i]);
    }
  }

  /** Bar `i` of the series is the entry of year FirstYear + i over the pair's games. */
  lemma SeriesBar(ms: seq<Match>, a: string, b: string, endYear: int, i: int)
    requires 0 <= i < YearCount(endYear)
    ensures Series(ms, a, b, endYear)[i] == YearEntry(Filter(ms, Pairing(a, b)), a, b, FirstYear + i)
  {
    var bars := Bars(Filter(ms, Pairing(a, b)), a, b, FirstYear, YearCount(endYear));
    assert Series(ms, a, b, endYear) == bars;
    assert bars[i] == YearEntry(Filter(ms, Pairing(a, b)), a, b, FirstYear + i);
  }

  /** The games of `a` against `b` in year `y`, in table order, as listed on a bar click. */
  function MatchesInYear(ms: seq<Match>, a: string, b: string, y: int): (r: seq<Match>)
    ensures forall m :: m in r <==> m in ms && m.date.year == y && IsPairing(m, a, b)
  {
    Filter(ms, PairingInYear(a, b, y))
  }

  /** The pairing filter does not depend on the order in which the two players are chosen. */
  lemma {:induction false} PairingSymmetric(ms: seq<Match>, a: string, b: string)
    ensures Filter(ms, Pairing(a, b)) == Filter(ms, Pairing(b, a))
  {
    FilterCongruent(ms, Pairing(a, b), Pairing(b, a));
  }

  /** The listing of a year is exactly the set of games behind that year's bar. */
  lemma {:induction false} ListingIsYearOfPairs(ms: seq<Match>, a: string, b: string, y: int)
    ensures MatchesInYear(ms, a, b, y) == Filter(Filter(ms, Pairing(a, b)), InYear(y))
  {
    FilterFilter(ms, Pairing(a, b), InYear(y), PairingInYear(a, b, y));
  }

  /** Listing the games of (b, a) gives the same games as listing those of (a, b). */
  lemma ListingSymmetric(ms: seq<Match>, a: string, b: string, y: int)
    ensures MatchesInYear(ms, a, b, y) == MatchesInYear(ms, b, a, y)
  {
    FilterCongruent(ms, PairingInYear(a, b, y), PairingInYear(b, a, y));
  }

  /** A bar's game count and wins are those of the games listed when the bar is clicked. */
  lemma ListingMatchesBar(ms: seq<Match>, a: string, b: string, endYear: int, y: int)
    requires FirstYear <= y <= endYear
    ensures var e := Series(ms, a, b, endYear)[y - FirstYear];
      var listed := MatchesInYear(ms, a, b, y);
      e.total == |listed| && e.winsA == Wins(listed, a) && e.winsB == Wins(listed, b)
  {
    ListingIsYearOfPairs(ms, a, b, y);
    SeriesBar(ms, a, b, endYear, y - FirstYear);
  }

  /** Choosing the players the other way round swaps each year's wins and win rates and keeps the draws. */
  lemma SeriesSwapSymmetric(ms: seq<Match>, a: string, b: string, endYear: int)
    ensures var ab := Series(ms, a, b, endYear);
      var ba := Series(ms, b, a, endYear);
      |ba| == |ab| && forall i :: 0 <= i < |ab| ==> ba[i] == ab[i].Swapped()
  {
    PairingSymmetric(ms, a, b);
    var ab := Series(ms, a, b, endYear);
    var ba := Series(ms, b, a, endYear);
    forall i | 0 <= i < |ab|
      ensures ba[i] == ab[i].Swapped()
    {
      SeriesBar(ms, a, b, endYear, i);
      SeriesBar(ms, b, a, endYear, i);
    }
  }

  /** For two different players a year's draws are the level games between them that year. */
  lemma {:induction false} YearDrawsAreLevelGames(ms: seq<Match>, a: string, b: string, y: int)
    requires a != b
    ensures YearEntry(Filter(ms, Pairing(a, b)), a, b, y).draws == LevelCount(MatchesInYear(ms, a, b, y))
  {
    ListingIsYearOfPairs(ms, a, b, y);
    PairOutcomesBalance(MatchesInYear(ms, a, b, y), a, b);
  }

  /**
   For two different players each year's draws are the level games between
   them, so they are never negative.
   */
  lemma SeriesDrawsAreLevelGames(ms: seq<Match>, a: string, b: string, endYear: int)
    requires a != b
    ensures var series := Series(ms, a, b, endYear);
      forall i :: 0 <= i < |series| ==>
        series[i].draws == LevelCount(MatchesInYear(ms, a, b, FirstYear + i)) && series[i].draws >= 0
  {
    var series := Series(ms, a, b, endYear);
    var pairs := Filter(ms, Pairing(a, b));
    forall i | 0 <= i < |series|
      ensures series[i].draws == LevelCount(MatchesInYear(ms, a, b, FirstYear + i))
    {
      SeriesBar(ms, a, b, endYear, i);
      YearDrawsAreLevelGames(ms, a, b, FirstYear + i);
      assert series[i] == YearEntry(pairs, a, b, FirstYear + i);
    }
  }

  /** With the same player on both sides, a decisive self-match makes the year's draws negative. */
  lemma SelfPairingNegativeDraws()
    ensures var e := Series([Match(Date(2020, 3, 1), "A", "A", 3, 1, "Playoff", "No")], "A", "A", 2020)[10];
      e.total == 1 && e.winsA == 1 && e.winsB == 1 && e.draws == -1
  {
    var m := Match(Date(2020, 3, 1), "A", "A", 3, 1, "Playoff", "No");
    assert [m][1..] == [];
    assert Filter([m], Pairing("A", "A")) == [m];
    assert Filter([m], InYear(2020)) == [m];
  }

  /** Two 2020 games between Alice and Bob, one won by each, give rates 50, 50 and 0 for 2020. */
  lemma SplitYearExample()
    ensures var ms := [Match(Date(2020, 2, 1), "Alice", "Bob", 2, 1, "Round Robin", "No"),
                       Match(Date(2020, 6, 1), "Bob", "Alice", 4, 0, "Playoff", "Yes")];
      var e := Series(ms, "Alice", "Bob", 2020)[10];
      e.year == 2020 && e.RateA() == 50.0 && e.RateB() == 50.0 && e.DrawRate() == 0.0
  {
    var ms := [Match(Date(2020, 2, 1), "Alice", "Bob", 2, 1, "Round Robin", "No"),
               Match(Date(2020, 6, 1), "Bob", "Alice", 4, 0, "Playoff", "Yes")];
    SplitYearBar(ms);
    SeriesBar(ms, "Alice", "Bob", 2020, 10);
    var e := Series(ms, "Alice", "Bob", 2020)[10];
    assert e == YearEntry(ms, "Alice", "Bob", 2020);
    assert e == YearStats(2020, 2, 1, 1, 0);
    EvenBarRates();
  }

  lemma EvenBarRates()
    ensures var e := YearStats(2020, 2, 1, 1, 0);
      e.RateA() == 50.0 && e.RateB() == 50.0 && e.DrawRate() == 0.0
  {
  }

  lemma SplitYearBar(ms: seq<Match>)
    requires ms == [Match(Date(2020, 2, 1), "Alice", "Bob", 2, 1, "Round Robin", "No"),
                    Match(Date(2020, 6, 1), "Bob", "Alice", 4, 0, "Playoff", "Yes")]
    ensures Filter(ms, Pairing("Alice", "Bob")) == ms
    ensures YearEntry(ms, "Alice", "Bob", 2020) == YearStats(2020, 2, 1, 1, 0)
  {
    var m1, m2 := ms[0], ms[1];
    assert ms[1..] == [m2];
    assert [m2][1..] == [];
    assert Filter(ms, Pairing("Alice", "Bob")) == ms;
    assert Filter(ms, InYear(2020)) == ms;
    assert Filter(ms, WonAsFirst("Alice")) == [m1];
    assert Filter(ms, WonAsSecond("Alice")) == [];
    assert Filter(ms, WonAsFirst("Bob")) == [m2];
    assert Filter(ms, WonAsSecond("Bob")) == [];
  }
}
