# Table-hockey match statistics

A Dafny model of the statistics layer of the th-stats dashboard (`my_app.py`).
The dashboard loads a table of table-hockey matches. Each match has a date, Player1,
Player2, GoalsPlayer1, GoalsPlayer2, Stage and an Overtime cell. The dashboard answers four
kinds of question about that table:

- the eight-figure summary of one player in one stage (games played, won, lost and drawn,
  goals scored and conceded, and both per-game averages);
- the win/draw/loss bar chart of the same selection, optionally only over overtime games;
- the per-year head-to-head chart of two players, from 2010 to the current year;
- the list of games between two players in one clicked year.

The model lifts each query out of its UI callback and writes it as a pure function over
`seq<Match>`. Each pandas boolean mask becomes a `Filter` with a named mask. Each `len(...)`
becomes a sequence length, and each column `.sum()` becomes `Sum`.

Modules:

- `Seqs` (seqs.dfy): the order-preserving mask `Filter`, column `Sum`, `FirstIndex` and
  `Unique`, which de-duplicates in first-appearance order the way pandas `unique` does.
- `Matches` (matches.dfy): the `Match` record and the masks. It holds the shared win rule,
  applied slot by slot as the source does: wins as Player1 plus wins as Player2. It also
  gives an independent reference view of each record from one player's side (`Won`, `Lost`,
  `Drew`, `GoalsFor`, `GoalsAgainst`), plus lemmas connecting the two views.
- `Dataset` (dataset.dfy): raw rows whose player cells may be missing, the load-time cleanup
  and the roster.
- `PlayerStats` (player_stats.dfy): the stage summary and the win/draw/loss tally. The two
  averages are derived from the summary's totals by member functions.
- `HeadToHead` (head_to_head.dfy): the per-year series and the single-year listing. Each bar
  holds its counts, and its three rates are derived from them by member functions.

Facts about the code that shape the model:

- Overtime is the raw cell, compared with the string `"Yes"` (my_app.py:180).
- Stage is the raw cell, compared with the selected stage string (my_app.py:28, 177).
- The roster is `pd.concat([Player1, Player2]).unique()` (my_app.py:23). It lists names in
  order of first appearance over the Player1 column followed by the Player2 column.
- Head-to-head draws are the remainder `total - winsA - winsB` (my_app.py:227), so they are an
  `int`. They can be negative when both selected players are the same and the data has a
  self-match.

Two conditions matter for the counting identities:

- The won/lost/drawn balance and the goals balance need `NoSelfMatch`: no record may have the
  selected player in both slots. `PlayerStats.SelfMatchCountedTwice` shows the balance failing
  without it.
- Head-to-head draws equal the level games, and are non-negative, only for two different
  players. `HeadToHead.SelfPairingNegativeDraws` shows draws of -1 when the two are the same.

## Model

| member | source | states |
|---|---|---|
| `Seqs.Filter` | my_app.py:27-28 | a boolean mask keeps exactly the records it accepts and never more records than the input |
| `Seqs.FilterMultiset` | my_app.py:27-28 | every accepted record is kept as many times as it occurs in the table and every rejected one is dropped, so duplicate rows are counted |
| `Seqs.FilterAppend` | my_app.py:27-28 | masking a concatenation masks each part in place, so the kept records stay in table order |
| `Seqs.FilterSingleton` | my_app.py:27-28 | a single record is kept exactly when the mask accepts it |
| `Seqs.FilterNarrowedCount` | my_app.py:179-180 | narrowing a selection first (the overtime restriction) never raises the count a later mask gives |
| `Seqs.Unique` | my_app.py:23 | the result holds every value of the input and nothing else, each once, ordered by first occurrence in the input |
| `Dataset.DropMissingPlayers` | my_app.py:16 | every kept record comes from a row of the input, every row with both players present is kept, and the result is no longer than the input |
| `Dataset.DropMissingPlayersKeepsCompleteRows` | my_app.py:16 | the cleaned table, read back as rows, is exactly the subsequence of rows with both players present, in their original order |
| `Dataset.DropMissingPlayersIdempotent` | my_app.py:16 | cleaning a table with no missing players returns it unchanged |
| `Dataset.PlayerColumns` | my_app.py:23 | the concatenation holds the Player1 column at positions 0..n-1 and the Player2 column at n..2n-1 |
| `Dataset.Roster` | my_app.py:23 | the roster holds exactly the names that appear as Player1 or Player2, with no duplicates, in order of first appearance over Player1 then Player2 |
| `Matches.Wins` | my_app.py:31-32 | wins from the Player1 slot plus wins from the Player2 slot never exceed the number of records the player plays in, since no record is won from both slots |
| `Matches.Losses` | my_app.py:33-34 | losses from either slot never exceed the number of records the player plays in |
| `Matches.LevelCount` | my_app.py:35 | the level games are at most all games, and there are none exactly when every record has unequal goals |
| `Matches.Scored` | my_app.py:36 | a player who plays in none of the records has scored 0 goals |
| `Matches.Conceded` | my_app.py:37 | a player who plays in none of the records has conceded 0 goals |
| `Matches.WinsAreWonRecords` | my_app.py:31-32 | without self-matches, wins counted as Player1 plus wins counted as Player2 equal the number of records the player won from their own side |
| `Matches.LossesAreLostRecords` | my_app.py:33-34 | without self-matches, the slot-by-slot loss count equals the number of records the player lost |
| `Matches.LevelAreDrawnRecords` | my_app.py:35 | over records that all involve the player, the equal-goals count is the number of the player's draws |
| `Matches.OutcomesPartition` | my_app.py:30-35 | every record involving the player is exactly one of won, lost or drawn from the player's side |
| `Matches.OutcomeCountsBalance` | my_app.py:30-35 | without self-matches, wins + losses + level games equal the number of the player's records |
| `Matches.GoalSumsFromPerspective` | my_app.py:36-37 | without self-matches, the two slot-by-slot goal sums are the player's own goals and the opponents' goals |
| `Matches.PerspectiveGoalsAddUp` | my_app.py:36-37 | own goals plus opponents' goals is the sum of GoalsPlayer1 + GoalsPlayer2 |
| `Matches.GoalsAddUp` | my_app.py:36-37 | without self-matches, goals scored + goals conceded is the sum of GoalsPlayer1 + GoalsPlayer2 over the records |
| `Matches.PairOutcomesBalance` | my_app.py:223-227 | in games between two different players, wins of each side plus level games add up to all games |
| `PlayerStats.StageGames` | my_app.py:27-28 | the selection holds exactly the records with the player in either slot and the chosen stage, and it is empty exactly when no record matches both conditions |
| `PlayerStats.Average` | my_app.py:38-39 | the mean is 0 for no games; otherwise it times the game count gives the goal total |
| `PlayerStats.Summary.AvgScored` | my_app.py:38 | goals scored per game: 0 without games, otherwise it times the games played gives the goals scored |
| `PlayerStats.Summary.AvgConceded` | my_app.py:39 | goals conceded per game: 0 without games, otherwise it times the games played gives the goals conceded |
| `PlayerStats.EmptySelectionCountsNothing` | my_app.py:30-37 | an empty selection has zero wins, losses, draws, goals scored and goals conceded |
| `PlayerStats.PlayerStageSummary` | my_app.py:25-39 | total games is 0 exactly when no record has the player in that stage, and then every figure is 0, so both averages are 0 rather than a division error |
| `PlayerStats.SummaryBalances` | my_app.py:30-35 | without self-matches, games won + lost + drawn equal total games |
| `PlayerStats.SummaryGoalsBalance` | my_app.py:36-37 | without self-matches, goals scored + conceded equal the sum of both goal columns over the player's stage games |
| `PlayerStats.SummaryFromPlayersView` | my_app.py:30-37 | without self-matches, won, lost, drawn, scored and conceded are the player's own results, whichever slot the player occupied |
| `PlayerStats.SelfMatchCountedTwice` | my_app.py:31-34 | a 3-1 record with the same player in both slots counts as one game, one win and one loss, so the balance fails |
| `PlayerStats.SingleWinExample` | my_app.py:25-39 | one 3-1 Round Robin win gives 1 game, 1 won, 0 lost, 0 drawn, 3 scored, 1 conceded and averages 3.0 and 1.0 for that stage, and all zeros for Playoff |
| `PlayerStats.TalliedGames` | my_app.py:176-180 | in the overtime view the chart counts exactly the player's stage games whose Overtime cell is "Yes"; in any other view, all the player's stage games |
| `PlayerStats.WinDrawLoss` | my_app.py:176-186 | an empty selection gives a zero tally |
| `PlayerStats.TallyAgreesWithSummary` | my_app.py:176-186 | outside the overtime view, the chart's wins, draws and losses are the summary's games won, drawn and lost |
| `PlayerStats.OvertimeTallyBounded` | my_app.py:179-186 | the overtime view's wins, draws and losses are each at most the total view's |
| `PlayerStats.TallyBalances` | my_app.py:182-186 | without self-matches, the three bars add up to the number of tallied games |
| `HeadToHead.IsPairing` | my_app.py:211 | a pairing record involves both chosen players, and for two different players every record involving both is a pairing |
| `HeadToHead.YearStats.RateA` | my_app.py:229-236 | the first player's win rate is 0 without games, otherwise it times the games gives 100 times the first player's wins |
| `HeadToHead.YearStats.RateB` | my_app.py:229-236 | the second player's win rate is 0 without games, otherwise it times the games gives 100 times the second player's wins |
| `HeadToHead.YearStats.DrawRate` | my_app.py:229-236 | the draw rate is 0 without games, otherwise it times the games gives 100 times the draws |
| `HeadToHead.Rate` | my_app.py:229-236 | a rate is 0 when there are no games; otherwise it times the game count is 100 times the count |
| `HeadToHead.RatesAddUp` | my_app.py:227-232 | when the three counts add up to a positive total, the three rates add up to 100 |
| `HeadToHead.BalancedBarRates` | my_app.py:227-236 | a bar whose wins and draws account for all its games has rates summing to 100, or all three 0 when it has no games |
| `HeadToHead.YearEntry` | my_app.py:221-227 | the bar is labelled with its year; for games between two different players, each side's wins are the year's games that side won and the draws are the year's level games |
| `HeadToHead.PairGamesOutcomes` | my_app.py:223-227 | among games between two different players, each side's slot-by-slot wins are the games it won, and wins of both sides plus level games are all the games |
| `HeadToHead.Bars` | my_app.py:220-240 | appending one bar per year gives `count` bars, and bar i is the entry of year from + i |
| `HeadToHead.Series` | my_app.py:210-240 | one bar per year of `range(2010, endYear + 1)`: the i-th bar is year 2010 + i, the last bar is the end year, there are none exactly when the end year is before 2010, and each bar's wins and draws account for all its games |
| `HeadToHead.SeriesRatesConsistent` | my_app.py:220-240 | every bar of the series has rates adding up to 100, or all three 0 in a year without games |
| `HeadToHead.SeriesBar` | my_app.py:211-236 | bar i of the series is computed from the pair's games of year 2010 + i |
| `HeadToHead.MatchesInYear` | my_app.py:282 | the listing holds exactly the table's games of that year between the two players, in either slot order |
| `HeadToHead.PairingSymmetric` | my_app.py:211 | the pairing filter for (A, B) and for (B, A) selects the same subsequence |
| `HeadToHead.ListingIsYearOfPairs` | my_app.py:282 | the year listing is the pair's games restricted to that year, the same games the chart's bar counts |
| `HeadToHead.ListingSymmetric` | my_app.py:282 | the listing for (A, B) equals the listing for (B, A) |
| `HeadToHead.ListingMatchesBar` | my_app.py:221-226 | a bar's game count and each side's wins are those of the games listed when the bar is clicked |
| `HeadToHead.SeriesSwapSymmetric` | my_app.py:211-240 | choosing the players the other way round swaps each year's wins and win rates and leaves total, draws and draw rate unchanged |
| `HeadToHead.YearDrawsAreLevelGames` | my_app.py:227 | for two different players, a year's draws are the number of equal-score games between them that year |
| `HeadToHead.SeriesDrawsAreLevelGames` | my_app.py:227 | for two different players, every year's draws equal the equal-score games of that year and are never negative |
| `HeadToHead.SelfPairingNegativeDraws` | my_app.py:223-227 | with the same player on both sides, one decisive self-match gives one win to each side and draws of -1 |
| `HeadToHead.SplitYearExample` | my_app.py:220-236 | two 2020 games, one won by each player, give 2020 rates of 50, 50 and 0 |
| `HeadToHead.SplitYearBar` | my_app.py:220-227 | for those two games the 2020 bar holds 2 games, 1 win for each player and 0 draws |
| `HeadToHead.EvenBarRates` | my_app.py:229-232 | a bar of 2 games with 1 win for each side has rates 50, 50 and 0 |

## Left out

- Reading the CSV file (my_app.py:13) and parsing dates (my_app.py:19) are input handling. The model starts from a parsed `seq<Row>` whose dates are already `Date` values.
- Missing goal cells (NaN) are not modelled: every `Row` has integer goals. The cleanup only drops rows with a missing player, so such rows would stay in the table.
- Date problems are not modelled: every `Row` has a `Date`. A missing date becomes NaT and the row stays in the table. A date that pandas cannot parse makes `pd.to_datetime` (my_app.py:19) raise, which stops the load.
- `pd.Timestamp.now()` (my_app.py:214) reads the clock. The end year of the series is a parameter.
- PlayerStats.Summary.AvgScored: gives the exact mean as a `real`, without the source's `round(..., 2)` (my_app.py:38); see PlayerStats.Average.
- PlayerStats.Summary.AvgConceded: gives the exact mean as a `real`, without the source's `round(..., 2)` (my_app.py:39); see PlayerStats.Average.
- PlayerStats.Average: gives the exact mean as a `real`; the source's `round(..., 2)` to two decimals (my_app.py:38-39) is float presentation and is not modelled.
- HeadToHead.YearStats.RateA: gives the exact percentage as a `real` (my_app.py:230); see HeadToHead.Rate.
- HeadToHead.YearStats.RateB: gives the exact percentage as a `real` (my_app.py:231); see HeadToHead.Rate.
- HeadToHead.YearStats.DrawRate: gives the exact percentage as a `real` (my_app.py:232); see HeadToHead.Rate.
- HeadToHead.Rate: gives the exact percentage as a `real`; the source's float arithmetic (my_app.py:230-232) is not modelled.
- The x-axis range from `min_year`/`max_year` (my_app.py:212-213, 264) is display framing. It is undefined when the pair has no games.
- Formatting dates with `strftime` (my_app.py:284) is presentation. The listing returns the records themselves.
- The eight labelled `stats_data` rows (my_app.py:41-74) only put the `Summary` fields under fixed labels. They are presentation, as are the `DataTable`, the figures, layouts, styling, callback registration, `show_stage_info`, `display_page` and `run_server`.
- Reading the clicked year from `clickData` (my_app.py:280-281) is UI. The year is a parameter, and the no-click message (my_app.py:294) is not modelled.
- An unset player dropdown (`None`) is not modelled separately. It matches no record, just like any name that is not in the table, so every count is 0.
