# nba_predictor, modelled in Dafny

This project models the core of `nba_predictor`. That package predicts the winner of an NBA
game from the difference between the two teams' box-score statistics.

- **Loading** (`Data`): player box-score rows are loaded. Each row is tagged with its team,
  its opponent, whether it was a home game and whether the team won.
- **Team games** (`Data`): player rows are grouped into one row per team per game. Counts are
  summed, shooting percentages are averaged and named players are counted.
- **Matchups** (`Data`): each team-game row is joined to its opponent's row for the same game.
  The result is a "team minus opponent" matchup row.
- **Season matchups** (`Data`): per-team season averages, plain or weighted by minutes, give
  the difference row for a hypothetical game.
- **Predictor** (`Model`): the `MatchupPredictor` object keeps its feature columns, its scaler
  and its classifier. Fitting updates them. Predicting, evaluating and explaining read them.
- **Chronological split** (`Split`): the rows are sorted by date and the latest ones are held
  out for testing.
- **Summary tables** (`Summaries`): the tables behind the charts. They are per-team summaries,
  home/away win rates and the top scorers.

Values that pandas keeps as floating point are exact `real`s. A missing value (NaN) is
`None` in an `Option<real>`. Calendar dates are day numbers (`int`). The learned parts of
scikit-learn are represented by values supplied to `Fit`:
- the scaler's standardising map;
- the classifier's coefficients and probability function.

The library's checks that decide whether fitting succeeds are modelled step by step: the
missing columns, the integer cast of `WIN`, the numeric features, an empty sample and the
two classes.

Modules `Common`, `Text`, `Sorting`, `Stats` and `Table` hold the supporting pieces:
- results and errors;
- Python slicing;
- string search, splitting and ordering;
- a generic sort and filter;
- means that skip missing values;
- `nunique` and `mode`;
- the data-frame value that the predictor reads.

Some behaviours of the code are easy to miss:
- **Join cardinality.** `build_matchup_dataset` performs a plain inner merge. A team-game
  without an opponent row is dropped, and a duplicated opponent row multiplies the matches.
  No join-cardinality error is raised. See `Data.UnmatchedRowDropped` and
  `Data.DuplicateTeamGameExample`.
- **Explanations.** `explain` multiplies the zero-filled raw feature values by the
  coefficients, not the standardised ones.
- **The `HOME` flag.** It uses `str.contains("vs.")`, which is a regular expression whose dot
  matches any character. `_parse_opponent` tests the literal text `vs.`. See
  `Data.HomeFlagWiderThanLiteral`.
- **Minute weighting.** In the minute-weighted season mean, a game with a missing value still
  adds its weight to the denominator. See `Stats.WeightedMeanCountsMissingWeight`.

## Model

| member | source | states |
|---|---|---|
| Data.ParseTeamIsFirstWord | nba_predictor/data.py:80-81 | The team is a prefix of the matchup that contains no space. It ends at the matchup's first space, or is the whole matchup when there is no space. |
| Data.ParseOpponentCases | nba_predictor/data.py:84-89 | A matchup containing "vs." yields the text after the last "vs. ". Otherwise a matchup containing "@" yields the text after the last "@ ". Any other matchup is a ValueError whose message is "Unrecognised matchup format: " followed by the matchup's Python `repr`. The text between that repr's quotes reads back as the matchup. |
| Data.UnrecognisedMessageReadsBack | nba_predictor/data.py:89 | The malformed-matchup message starts with "Unrecognised matchup format: ", and the text between the quotes after that prefix reads back as the matchup. |
| Data.UnrecognisedBackslashEscaped | nba_predictor/data.py:89 | The message for the malformed matchup `A\B` shows the backslash doubled, between single quotes. |
| Data.UnrecognisedQuoteDoubleQuoted | nba_predictor/data.py:89 | A malformed matchup with a single quote, and no double quote, backslash or control character, appears unchanged between double quotes in the message. |
| Text.ReprRoundTrip | nba_predictor/data.py:89 | Reading back the escapes between the quotes of `repr(s)` gives `s`. The escapes cover backslash, the quote, tab, line feed, carriage return and the other control characters. |
| Text.ReprOfPlain | nba_predictor/data.py:89 | A text with no single quote, backslash or control character is shown unchanged between single quotes. |
| Data.HomeFlag | nba_predictor/data.py:116 | The home flag holds exactly when "vs" followed by some character other than a line break occurs in the matchup (the regular-expression reading). |
| Data.HomeFlagCoversLiteralHome | nba_predictor/data.py:84-116 | Every matchup that the opponent parser reads as a home game is flagged home. |
| Data.HomeFlagWiderThanLiteral | nba_predictor/data.py:116 | An away matchup ("BOS @ vsX") is flagged home although it lacks the literal "vs.". |
| Data.WinFlag | nba_predictor/data.py:117 | The win flag is 0 or 1, and it is 1 exactly when the result reads "W". |
| Data.Coerce | nba_predictor/data.py:111-112 | Coercion leaves no text cell behind. Numbers and blanks pass unchanged. A text cell becomes blank exactly when it does not parse as a number. Otherwise it becomes the number it parses to. |
| Data.CoerceColumns | nba_predictor/data.py:111-112 | The column loop coerces each row exactly as the column-by-column specification does, with one output row per input row. |
| Data.LoadedLogs | nba_predictor/data.py:107-119 | Loading succeeds exactly when every matchup parses, and then yields one row per input row. Each row carries its input row's game id, date, matchup and player name. Its team and opponent are parsed from the matchup, and its home and win flags are derived from the matchup and `WL`. Its stats are exactly the input's stat columns, each coerced. On failure, the error is the parse error of the first malformed row. |
| Data.LoadPlayerLogs | nba_predictor/data.py:92-119 | The row-by-row loader returns exactly the specified result, including the first-malformed-row error. |
| Data.GroupKeys | nba_predictor/data.py:138-147 | The group keys are exactly the keys that occur in the player rows. Each appears once, and they are strictly ordered, with game ids compared as text. |
| Data.TeamGameAggregatesItsGroup | nba_predictor/data.py:131-150 | Each team-game row comes from a non-empty group of player rows with its key. Its features are that group's sums, means and named-player count, and its date is the first row's date. |
| Data.TeamGamesComeFromPlayerRows | nba_predictor/data.py:131-150 | Every team-game row has a player row with the same key. |
| Data.TeamGamesCoverPlayerRows | nba_predictor/data.py:131-150 | Every player row is represented by a team-game row with its key. |
| Data.TeamGamesOrdered | nba_predictor/data.py:131-150 | Team-game rows are in strictly increasing key order, with game ids compared as text, so no key occurs twice. |
| Data.PrepareTeamGameFeatures | nba_predictor/data.py:122-177 | The result holds the team-game rows, each as wide as the feature columns, and the feature columns are the aggregated statistics and the player count. |
| Data.FeatureColumnsAreAggregatesLessMetadata | nba_predictor/data.py:151-163 | The feature columns are exactly the aggregation's output columns, in order, minus the identifying columns. |
| Data.AggregateOfOne | nba_predictor/data.py:131-136 | Aggregating a single player row gives its statistics: a missing count sums to 0, a missing percentage stays missing, and the player count is 1 or 0. |
| Data.SinglePlayerTeamGame | nba_predictor/data.py:131-150 | A team-game formed from one player row carries that row's statistics. |
| Data.TeamGamesOrderIndependent | nba_predictor/data.py:131-175 | Reordering the player rows changes neither the team-game keys nor their features. |
| Data.BuildMatchupDataset | nba_predictor/data.py:180-233 | The difference column names are the feature names with "_DIFF". The row-building loop yields exactly the specified matchup rows. |
| Data.MatchupMirror | nba_predictor/data.py:199-218 | Every matchup row has a mirror row for the same game seen from the opponent's side, with every difference negated. |
| Data.UnmatchedRowDropped | nba_predictor/data.py:199-212 | A team-game without an opponent row produces no matchup row. |
| Data.JoinOneEach | nba_predictor/data.py:208-212 | When each row has exactly one counterpart, the join pairs each row with it, in left order. |
| Data.OneMatchupPerTeamGame | nba_predictor/data.py:199-233 | With exactly one counterpart per row, there is one matchup row per team-game, in order. Each carries that game's identifiers, its home flag as 1/0, its win flag, and its features minus its opponent's. |
| Data.TwoTeamGameExample | nba_predictor/data.py:199-233 | A two-team game yields the two expected matchup rows, with +10/+5/+5 and −10/−5/−5 differences. |
| Data.DuplicateTeamGameExample | nba_predictor/data.py:199-212 | A duplicated opponent row multiplies the matches (three team-games give four matchup rows). |
| Data.TeamSeasonAverages | nba_predictor/data.py:236-268 | There is one season row per team that has games, in strictly increasing team order. Each row is that team's plain or minute-weighted average. |
| Data.SeasonRow | nba_predictor/data.py:256-268 | Every season row belongs to a team with at least one game, and equals that team's average. |
| Data.SeasonAverageBetween | nba_predictor/data.py:256-266 | If all of a team's values of a feature lie in [lo, hi], so does its season average. Without weighting, the average is present. |
| Data.TeamAverageBetween | nba_predictor/data.py:258-266 | A team's (weighted) average lies between the bounds of its game values. |
| Data.SingleGameSeasonAverage | nba_predictor/data.py:256-266 | A team with a single game has that game's features as its unweighted averages, and the zero-filled features as its weighted ones. |
| Data.WeightingNeedsMinutes | nba_predictor/data.py:256-266 | Without a MIN column, weighting by minutes changes nothing. |
| Data.SeasonAveragesOrderIndependent | nba_predictor/data.py:256-268 | Reordering the team-game rows leaves the season averages unchanged. |
| Data.BuildSeasonMatchupFrame | nba_predictor/data.py:272-317 | The result is a ValueError exactly when a team lacks averages. It is a KeyError exactly when both teams have averages but a base feature is missing. Otherwise the row has id SEASON_AVG, the given date, venue 1/0 and win 0, and its differences are the team's average minus the opponent's for each base feature. |
| Data.TeamMissingMessage | nba_predictor/data.py:287-291 | A missing team is named in the ValueError message. |
| Data.OpponentMissingMessage | nba_predictor/data.py:287-291 | A missing opponent is named in the ValueError message. |
| Data.BothMissingMessage | nba_predictor/data.py:287-291 | When both teams are missing, the message lists them in sorted order, separated by ", ". |
| Data.SeasonMatchupAntisymmetric | nba_predictor/data.py:272-317 | Swapping team and opponent keeps success the same and negates every difference. |
| Data.SeasonMatchupOfPipeline | nba_predictor/data.py:236-317 | For two teams with games and the pipeline's own difference columns, the season matchup succeeds. Its differences are the two teams' averages subtracted. |
| Data.BaseOfDiffName | nba_predictor/data.py:285 | Stripping "_DIFF" from a difference column name gives back its feature name. |
| Model.Prepared | nba_predictor/model.py:42-51 | Unset or empty feature columns give the "not set" ValueError. On success, the scaler was fully fitted (not left reset by a failed fit) on these columns, every column is present and numeric, there is a row, and each row is the standardised zero-filled selection. |
| Model.PreparedMissingColumns | nba_predictor/model.py:45-49 | There is a KeyError exactly when columns are missing, and it lists them sorted and joined with ", ". |
| Model.PreparedSucceeds | nba_predictor/model.py:42-51 | Preparation succeeds exactly when the columns are present, the scaler was fitted on them, the cells are numeric and there is a row. |
| Model.Probabilities | nba_predictor/model.py:64-68 | Preparation errors pass through. An unfitted classifier is a NotFittedError. On success the classifier has usable coefficients, and there is one probability per row, the classifier applied to the prepared row. |
| Model.Scores | nba_predictor/model.py:67 | The classifier scores rows only when every row has its recorded input count and it holds coefficients of that width. A classifier that has never learned coefficients raises the missing `coef_` AttributeError. Each probability is the classifier's for its row. |
| Model.PreparedAfterFit | nba_predictor/model.py:42-62 | After a successful fit, preparing the same frame gives one standardised row per input row. |
| Model.FitThenPredict | nba_predictor/model.py:53-68 | After a successful fit, the probabilities for the training frame exist, and row i's is the learned function of its standardised features. |
| Model.Predictions | nba_predictor/model.py:70-74 | Predicting fails exactly when the probabilities fail, with the same error. Otherwise each label is 0 or 1, and it is 1 exactly when the probability reaches the threshold. |
| Model.PredictionsMonotone | nba_predictor/model.py:70-74 | Raising the threshold never turns a 0 label into a 1. |
| Model.Evaluation | nba_predictor/model.py:76-87 | Target and probability errors pass through, in that order. Success implies that both exist. |
| Model.EvaluationAccuracy | nba_predictor/model.py:79-84 | A successful evaluation saw only targets 0 and 1, and both of them. Its accuracy lies in [0, 1] and is 1 exactly when every 0.5-threshold label is right. |
| Model.RankingIsRanking | nba_predictor/model.py:105 | The ranking lists each feature index once, by decreasing absolute contribution. |
| Model.ExplainsShape | nba_predictor/model.py:103-115 | An explanation carries the row's probability and keeps as many features as the Python slice `[:top_n]` does. Each feature is paired with its own contribution, in decreasing absolute size. |
| Model.ExplainsLargest | nba_predictor/model.py:105-108 | A feature whose contribution is larger in size than a reported one is itself reported. |
| Model.ExplainRow | nba_predictor/model.py:104-110 | The explanation built for one row meets the explanation specification. |
| Model.FitOutcome | nba_predictor/model.py:53-62 | Fitting passes only when the scaler's step passes. |
| Model.FitMissingColumns | nba_predictor/model.py:56-58 | Fitting fails with a KeyError exactly when a feature column or WIN is missing. The message lists the missing feature columns. |
| Model.FitSucceeds | nba_predictor/model.py:56-61 | Fitting succeeds exactly when the scaler's step passes and WIN has two classes. |
| Model.MatchupPredictor.constructor | nba_predictor/model.py:33-40 | A new predictor has the given columns and classifier and an unfitted scaler. |
| Model.MatchupPredictor.Fit | nba_predictor/model.py:53-62 | The feature columns are always recorded. Once the scaler's step is reached, the scaler is refitted. It holds the new transform when that step passes. It is left reset when the step fails, keeping only its column names and width. The classifier is replaced when the whole fit succeeds. When only the two-class check fails, it records the new input count and keeps the coefficients it learned before, if any. An estimator whose step is not reached is unchanged. The outcome is the specified one. |
| Model.ResetScalerPrepares | nba_predictor/model.py:42-51 | A scaler left reset by a failed fit never prepares a frame, whatever the feature columns and the frame. |
| Model.FirstFitOneClassBlocksPrediction | nba_predictor/model.py:53-68 | A classifier whose only fit saw one class makes every prediction fail. Once the rows have its input count, the error is the missing `coef_` AttributeError, not NotFittedError. |
| Model.OneClassRefitKeepsPredictions | nba_predictor/model.py:53-68 | A one-class refit on as many inputs as before leaves every prediction exactly as it was. |
| Model.OneClassRefitOtherWidth | nba_predictor/model.py:53-68 | A one-class refit on a different number of inputs makes every prediction fail. |
| Model.RefitBlocksPrediction | nba_predictor/model.py:53-68 | After a fit that fails at the scaler step, every later probability request fails, whatever the classifier and the frame. |
| Model.MatchupPredictor.Explain | nba_predictor/model.py:89-116 | Unset columns are a ValueError and missing coefficients an AttributeError, in that order. Probability errors pass through. Otherwise there is one explanation per row, each satisfying the explanation specification for that row's contributions. |
| Model.RowsHaveCoefficientWidth | nba_predictor/model.py:97-108 | Once probabilities exist, every row's features are present and numeric, and there are as many as coefficients. |
| Split.ByDate | nba_predictor/main.py:57 | The sorted rows are a permutation of the input, in non-decreasing date order. |
| Split.ChronologicalSplit | nba_predictor/main.py:56-59 | The training part has length slice-end(int(n·(1−test_size))), the two parts together have n rows, and both are in date order. |
| Split.SplitIsPermutation | nba_predictor/main.py:56-59 | Together, training and test parts are exactly the input rows. |
| Split.TrainBeforeTest | nba_predictor/main.py:56-59 | No training row is dated after any test row. |
| Split.SplitSizes | nba_predictor/main.py:58-59 | For 0 ≤ test_size ≤ 1, the training part has ⌊n·(1−test_size)⌋ rows and the test part has the rest. |
| Split.SplitExtremes | nba_predictor/main.py:58-59 | Test size 0 trains on everything, and test size 1 tests on everything. |
| Split.NegativeSplitIndex | nba_predictor/main.py:58-59 | A test size above 1 gives a negative index, which the slice counts from the end. |
| Summaries.StatPositions | nba_predictor/visualization.py:48-58 | The statistics the summaries read sit at the positions used for REB, AST, TOV and PTS. |
| Summaries.AttachOpponentPoints | nba_predictor/visualization.py:17-40 | There is a many-to-one merge error exactly when a game/team pair repeats. Otherwise the rows kept are exactly those whose opponent's points are known, in order. |
| Summaries.ScoredFrom | nba_predictor/visualization.py:31-40 | The kept rows carry their opponent's points and their margin as points minus opponent points. |
| Summaries.OpponentPointsOfRow | nba_predictor/visualization.py:31-40 | Each kept row is an input row whose opponent row in the same game has exactly the attached points, and its margin is points minus those points. |
| Summaries.DroppedRows | nba_predictor/visualization.py:37 | A row is kept exactly when an opponent row with known points exists. |
| Summaries.ScoredGamesHaveMargins | nba_predictor/visualization.py:39 | Every kept row's margin is its points minus its opponent's. |
| Summaries.TeamSummaries | nba_predictor/visualization.py:43-63 | There is one line per team that has games. |
| Summaries.TeamSummariesRanked | nba_predictor/visualization.py:58 | Lines are in decreasing mean margin, with missing values last. |
| Summaries.TeamSummariesLines | nba_predictor/visualization.py:46-62 | Each line is the summary of a team that plays, and no team appears twice. |
| Summaries.TeamSummariesCover | nba_predictor/visualization.py:46-58 | Every team that plays has a line. |
| Summaries.SummaryCounts | nba_predictor/visualization.py:48-60 | A team that plays has between 1 and its row count of distinct games. Its win rate lies in [0, 1], and its net rating equals its mean margin. |
| Summaries.PointDiffIsPointsMinusAllowed | nba_predictor/visualization.py:51-52 | With known points, the mean margin is mean points minus mean points allowed. |
| Summaries.Ratio | nba_predictor/visualization.py:61-62 | The assist-to-turnover ratio is present exactly when both means are present and turnovers are not 0, and then it times turnovers is assists. |
| Summaries.HomeAwaySummary | nba_predictor/visualization.py:66-78 | The table fails exactly when every game is away (KeyError home_win_rate) or every game is home (KeyError away_win_rate). |
| Summaries.HomeAwayLines | nba_predictor/visualization.py:69-78 | Lines are in decreasing home-court edge. Each is its team's home/away line, and the teams are distinct. |
| Summaries.HomeAwayCover | nba_predictor/visualization.py:69-75 | Every team that plays has a home/away line. |
| Summaries.VenueWinRate | nba_predictor/visualization.py:70 | A venue win rate exists exactly when the team played there, and it lies in [0, 1]. |
| Summaries.HomeCourtEdge | nba_predictor/visualization.py:76 | The edge exists exactly when the team played both home and away, and it lies in [−1, 1]. |
| Summaries.QualifiedPlayers | nba_predictor/visualization.py:84-92 | Qualified players are listed once each. |
| Summaries.QualifiedPlayersMembers | nba_predictor/visualization.py:84-92 | A player qualifies exactly when named in some row with at least 10 distinct games. |
| Summaries.PlayerScoringTable | nba_predictor/visualization.py:81-97 | The table has as many lines as `head(top_n)` leaves of the qualified players. |
| Summaries.PlayerScoringLines | nba_predictor/visualization.py:84-97 | Lines are in decreasing mean points. Each belongs to a distinct qualified player and is that player's scoring line. |
| Summaries.TopScorers | nba_predictor/visualization.py:92-94 | A qualified player left out of the table scores no more than anyone in it. |
| Summaries.ScoringTeam | nba_predictor/visualization.py:89-96 | A player's team is one of their teams and occurs most often, the smallest among ties. The label is "name (team)". |
| Stats.Mode | nba_predictor/visualization.py:89 | The mode is missing exactly for no values. Otherwise it is a most frequent value, the smallest among equally frequent ones. |
| Stats.WeightedMeanCountsMissingWeight | nba_predictor/data.py:258-264 | A missing value is skipped by the plain mean, but it still weighs in the weighted mean's denominator. |

## Left out

- Reading the CSV file and parsing dates: rows arrive as values, with `GAME_DATE` already a day number. Decimal text is read by a plain decimal parser, not pandas' full float grammar.
- Floating point: all arithmetic is exact over reals, so rounding in means, in `n * (1 - test_size)` and in the scaler is not modelled.
- The scaler and the classifier's learning are not modelled. The standardising map, the coefficients and the probability function are parameters of `Fit`. Solver iterations and convergence are not modelled.
- Log loss and ROC AUC values: only the checks that decide whether `evaluate` raises are modelled, and the accuracy it returns.
- The wall clock: the date of a season matchup row is a parameter of `Data.BuildSeasonMatchupFrame`.
- Data-frame index labels and the dictionary form of an explanation are not modelled. A feature named "probability", or a feature column listed twice, would collide as a dictionary key; those cases are not modelled.
- Model.ResetScalerPrepares: the model returns scikit-learn's `AttributeError` for the missing `mean_` when a reset scaler meets a frame that passes its validation. The lemma proves only that preparation fails, not which error it is, because the proof over the long error messages is too costly.
- Model.RefitBlocksPrediction: likewise proves that prediction fails after a reset, not that the error is the `mean_` `AttributeError`.
- Text.Repr: Python's `repr` also escapes non-printable characters beyond ASCII (such as `\x85` or `\u2028`). Here every character from 0x80 up is taken as printable, because the Unicode printability table is not modelled.
- A `WIN` column with more than two classes: the classifier is taken as binary.
- Model.RefitClassifier: a classifier given to the constructor that exposes no coefficients is taken to be a LogisticRegression that was never fitted, so after a one-class fit it has no `coef_`.
- Exact pandas and scikit-learn wording is approximated in messages that the package does not write itself. pandas' "None of [...] are in the [columns]" variant of the KeyError is not distinguished from the "not in index" one.
- pandas' unstable sort: ties may come in any order. The contracts promise order and content only, not which of several tied rows comes first.
- The chart, PDF and story rendering, the command-line entry point and the fallback team list are not modelled: they are I/O and presentation around the modelled tables.
- Data.RawPlayerLog: `GAME_ID`, `GAME_DATE` and `MATCHUP` are always present. pandas reads an empty cell as NaN, and three behaviours follow that are not modelled: an empty `MATCHUP` makes `_parse_team` raise `AttributeError` at nba_predictor/data.py:114; a row with an empty `GAME_ID` drops out of every grouping; an empty date becomes NaT, which `"first"` skips and the date sort puts last.
- Data.LoadedLogs: cannot return the `AttributeError` that an empty `MATCHUP` cell raises, because a raw row always holds a matchup text (see `Data.RawPlayerLog`). Its contract covers only rows whose three key cells are present.
- Data.GroupKeys: the game id is kept in its CSV spelling and ordered as text. pandas reads an all-digit `GAME_ID` column as int64, which drops leading zeros and orders ids as numbers. For ids that all have the same number of digits, such as nba_api's ten-digit ids, text order and numeric order agree and no two ids merge. With ids `9` and `10`, pandas puts `9` first and the model `10`; ids `007` and `7` are one game to pandas and two here.
- Data.TeamGamesOrdered: the promised order compares game ids as text, so it is pandas' numeric order only under the same condition as for `Data.GroupKeys`.
- Data.TeamGamesCoverPlayerRows: every player row has a game id, so the rows pandas drops for a missing id never arise here.
- Data.BuildMatchupDataset: the frame's column order and the `HOME` integer cast are modelled as fields of the row value, not as a data-frame layout.
