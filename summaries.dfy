/** The tables behind the charts of `nba_predictor/visualization.py`: team-games with the
    opponent's points, per-team summaries, the home/away split of win rates, and the top
    scorers among the players. */
module Summaries {
  import opened Common
  import opened Text
  import opened Sorting
  import opened Stats
  import opened Data

  // ----- the statistics read from a team-game -----

  /** Positions in `TeamFeatureColumns` of the statistics the summaries read. */
  const Reb: nat := 9
  const Ast: nat := 10
  const Tov: nat := 13
  const Pts: nat := 15

  lemma StatPositions()
    ensures TeamFeatureColumns[Reb] == "REB" && TeamFeatureColumns[Ast] == "AST"
    ensures TeamFeatureColumns[Tov] == "TOV" && TeamFeatureColumns[Pts] == "PTS"
  {
  }

  /** The statistic at position `k` of a team-game's features, missing if there is none. */
  function Stat(g: TeamGame, k: nat): Option<real> {
    if k < |g.features| then g.features[k] else None
  }

  // ----- opponent points -----

  /** A team-game with the points its opponent scored and the points margin. */
  datatype ScoredGame = ScoredGame(game: TeamGame, oppPoints: real, pointDiff: Option<real>)

  /** `r` is the row of `l`'s opponent in `l`'s game. */
  predicate IsOpponentRow(l: TeamGame, r: TeamGame) {
    r.gameId == l.gameId && r.team == l.opponent
  }

  /** No two rows share a game and a team: the merge's right side has unique keys. */
  predicate UniqueGameTeams(rows: seq<TeamGame>) {
    forall i, j :: 0 <= i < j < |rows| ==> !(rows[i].gameId == rows[j].gameId && rows[i].team == rows[j].team)
  }

  const NotManyToOne := ValueError("Merge keys are not unique in right dataset; not a many-to-one merge")

  /** The first row of `rows` that is `l`'s opponent's row. */
  function OpponentRow(rows: seq<TeamGame>, l: TeamGame): (r: Option<TeamGame>)
    ensures r.Some? ==> r.value in rows && IsOpponentRow(l, r.value)
    ensures r.None? ==> forall k :: 0 <= k < |rows| ==> !IsOpponentRow(l, rows[k])
  {
    if rows == [] then None
    else if IsOpponentRow(l, rows[0]) then Some(rows[0])
    else
      var r := OpponentRow(rows[1..], l);
      assert forall k :: 1 <= k < |rows| ==> rows[k] == rows[1..][k - 1];
      r
  }

  /** The opponent's points for a row: the PTS of the opponent's row, missing when there is
      no such row or its PTS is missing. */
  function OpponentPoints(rows: seq<TeamGame>, l: TeamGame): Option<real> {
    match OpponentRow(rows, l)
    case None => None
    case Some(r) => Stat(r, Pts)
  }

  function HasOpponentPoints(rows: seq<TeamGame>): TeamGame -> bool {
    (l: TeamGame) => OpponentPoints(rows, l).Some?
  }

  function GameOf(): ScoredGame -> TeamGame {
    (s: ScoredGame) => s.game
  }

  /** The left merge followed by `dropna`: the rows of `left` whose opponent's points are
      known, in order, each with those points and its margin. */
  function ScoredFrom(rows: seq<TeamGame>, left: seq<TeamGame>): (out: seq<ScoredGame>)
    ensures MapSeq(out, GameOf()) == Filter(left, HasOpponentPoints(rows))
    ensures forall k :: 0 <= k < |out| ==>
      Some(out[k].oppPoints) == OpponentPoints(rows, out[k].game) &&
      out[k].pointDiff == Sub(Stat(out[k].game, Pts), Some(out[k].oppPoints))
  {
    if left == [] then []
    else
      var rest := ScoredFrom(rows, left[1..]);
      match OpponentPoints(rows, left[0])
      case None => rest
      case Some(p) =>
        var s := ScoredGame(left[0], p, Sub(Stat(left[0], Pts), Some(p)));
        assert MapSeq([s] + rest, GameOf()) == [left[0]] + MapSeq(rest, GameOf());
        [s] + rest
  }

  /** Every team-game with its opponent's points (`_attach_opponent_points`). The merge
      validates that the opponent side is many-to-one: two rows with the same game and
      team anywhere in the table are a `ValueError`, whether or not they are matched. */
  function AttachOpponentPoints(rows: seq<TeamGame>): (r: Result<seq<ScoredGame>>)
    ensures r.Err? <==> !UniqueGameTeams(rows)
    ensures r.Err? ==> r.error == NotManyToOne
    ensures r.Ok? ==> MapSeq(r.value, GameOf()) == Filter(rows, HasOpponentPoints(rows))
  {
    if UniqueGameTeams(rows) then Ok(ScoredFrom(rows, rows)) else Err(NotManyToOne)
  }

  /** A surviving row's opponent points are the PTS of its opponent's row, the only such
      row, and its margin is its own PTS minus them. */
  lemma OpponentPointsOfRow(rows: seq<TeamGame>, k: nat)
    requires AttachOpponentPoints(rows).Ok? && k < |AttachOpponentPoints(rows).value|
    ensures var s := AttachOpponentPoints(rows).value[k];
      s.game in rows &&
      (exists r :: r in rows && IsOpponentRow(s.game, r) && Stat(r, Pts) == Some(s.oppPoints)) &&
      (forall r :: r in rows && IsOpponentRow(s.game, r) ==> Stat(r, Pts) == Some(s.oppPoints)) &&
      s.pointDiff == Sub(Stat(s.game, Pts), Some(s.oppPoints))
  {
    var out := AttachOpponentPoints(rows).value;
    var s := out[k];
    assert MapSeq(out, GameOf())[k] == s.game;
    var o := OpponentRow(rows, s.game).value;
    forall r | r in rows && IsOpponentRow(s.game, r) ensures Stat(r, Pts) == Some(s.oppPoints) {
      OneOpponentRow(rows, s.game, r, o);
    }
  }

  /** A row is dropped exactly when no opponent row, or no opponent PTS, is found for it. */
  lemma DroppedRows(rows: seq<TeamGame>, l: TeamGame)
    requires AttachOpponentPoints(rows).Ok? && l in rows
    ensures l in MapSeq(AttachOpponentPoints(rows).value, GameOf()) <==>
      exists r :: r in rows && IsOpponentRow(l, r) && Stat(r, Pts).Some?
  {
    if exists r :: r in rows && IsOpponentRow(l, r) && Stat(r, Pts).Some? {
      var r :| r in rows && IsOpponentRow(l, r) && Stat(r, Pts).Some?;
      OneOpponentRow(rows, l, r, OpponentRow(rows, l).value);
    }
  }

  /** With unique game and team keys a row has at most one opponent row. */
  lemma OneOpponentRow(rows: seq<TeamGame>, l: TeamGame, r1: TeamGame, r2: TeamGame)
    requires UniqueGameTeams(rows) && r1 in rows && r2 in rows
    requires IsOpponentRow(l, r1) && IsOpponentRow(l, r2)
    ensures r1 == r2
  {
    var i :| 0 <= i < |rows| && rows[i] == r1;
    var j :| 0 <= j < |rows| && rows[j] == r2;
  }

  // ----- ranking -----

  /** `a` comes no later than `b` in a descending sort with missing values last. */
  predicate DescLe(a: Option<real>, b: Option<real>) {
    b.None? || (a.Some? && a.value >= b.value)
  }

  function ByKeyDesc<R>(key: R -> Option<real>): (R, R) -> bool {
    (a: R, b: R) => DescLe(key(a), key(b))
  }

  lemma ByKeyDescIsTotalPreorder<R(!new)>(key: R -> Option<real>)
    ensures TotalPreorder(ByKeyDesc(key))
  {
  }

  /** `sort_values(key, ascending=False)`: the rows by decreasing key, missing keys last.
      pandas' default sort is not stable, so rows with equal keys may come in any order;
      only "sorted and a permutation" is promised. */
  function Ranked<R(!new)>(rows: seq<R>, key: R -> Option<real>): (r: seq<R>)
    ensures multiset(r) == multiset(rows) && |r| == |rows|
    ensures forall i, j :: 0 <= i < j < |r| ==> DescLe(key(r[i]), key(r[j]))
  {
    ByKeyDescIsTotalPreorder(key);
    SortBySorted(rows, ByKeyDesc(key));
    SortBy(rows, ByKeyDesc(key))
  }

  /** A ranking of one line per key: each key once, each line the line of its key. */
  lemma {:induction false} RankedLines<R(!new)>(keys: seq<string>, r: seq<R>, lineOf: string -> R, keyOf: R -> string)
    requires NoDuplicates(keys)
    requires forall t :: keyOf(lineOf(t)) == t
    requires multiset(r) == multiset(MapSeq(keys, lineOf))
    ensures forall i :: 0 <= i < |r| ==> keyOf(r[i]) in keys && r[i] == lineOf(keyOf(r[i]))
    ensures forall k :: 0 <= k < |keys| ==> exists i :: 0 <= i < |r| && keyOf(r[i]) == keys[k]
    ensures forall i, j :: 0 <= i < j < |r| ==> keyOf(r[i]) != keyOf(r[j])
  {
    var base := MapSeq(keys, lineOf);
    var names := MapSeq(r, keyOf);
    assert MapSeq(base, keyOf) == keys;
    MapPermutation(base, r, keyOf);
    PermutationKeepsNoDuplicates(keys, names);
    forall i | 0 <= i < |r| ensures keyOf(r[i]) in keys && r[i] == lineOf(keyOf(r[i])) {
      assert r[i] in multiset(base);
      assert names[i] in multiset(keys);
    }
    forall k | 0 <= k < |keys| ensures exists i :: 0 <= i < |r| && keyOf(r[i]) == keys[k] {
      assert keys[k] in multiset(names);
      var i :| 0 <= i < |names| && names[i] == keys[k];
    }
    forall i, j | 0 <= i < j < |r| ensures keyOf(r[i]) != keyOf(r[j]) {
      assert names[i] != names[j];
    }
  }

  /** The lines of `keys`, each key once, by decreasing score with missing scores last. */
  function RankedLinesOf<R(!new)>(keys: seq<string>, lineOf: string -> R, keyOf: R -> string, score: R -> Option<real>): (r: seq<R>)
    requires NoDuplicates(keys) && forall t :: keyOf(lineOf(t)) == t
    ensures |r| == |keys|
    ensures forall i :: 0 <= i < |r| ==> keyOf(r[i]) in keys && r[i] == lineOf(keyOf(r[i]))
    ensures forall k :: 0 <= k < |keys| ==> exists i :: 0 <= i < |r| && keyOf(r[i]) == keys[k]
    ensures forall i, j :: 0 <= i < j < |r| ==> keyOf(r[i]) != keyOf(r[j])
    ensures forall i, j :: 0 <= i < j < |r| ==> DescLe(score(r[i]), score(r[j]))
  {
    var r := Ranked(MapSeq(keys, lineOf), score);
    RankedLines(keys, r, lineOf, keyOf);
    r
  }

  /** The teams of the scored games, each once, in alphabetical order (pandas' grouping
      order). */
  function ScoredTeams(gs: seq<ScoredGame>): (teams: seq<string>)
    ensures NoDuplicates(teams)
    ensures forall t :: t in teams <==> Plays(gs, t)
  {
    var teams := SortedSet(MapSeq(gs, TeamOf()));
    assert forall t :: t in MapSeq(gs, TeamOf()) <==> Plays(gs, t) by {
      forall t ensures t in MapSeq(gs, TeamOf()) <==> Plays(gs, t) {
        if Plays(gs, t) {
          var k :| 0 <= k < |gs| && gs[k].game.team == t;
          assert MapSeq(gs, TeamOf())[k] == t;
        }
      }
    }
    teams
  }

  /** `team` has a scored game. */
  predicate Plays(gs: seq<ScoredGame>, team: string) {
    exists k :: 0 <= k < |gs| && gs[k].game.team == team
  }

  // ----- team summaries -----

  /** One team's line of the summary table. */
  datatype TeamSummary = TeamSummary(
    team: string, gamesPlayed: nat, avgPoints: Option<real>, avgPointsAllowed: Option<real>,
    avgPointDiff: Option<real>, avgRebounds: Option<real>, avgAssists: Option<real>,
    avgTurnovers: Option<real>, winRate: Option<real>, netRating: Option<real>,
    assistToTurnover: Option<real>)

  function TeamOf(): ScoredGame -> string {
    (s: ScoredGame) => s.game.team
  }

  function OfTeam(team: string): ScoredGame -> bool {
    (s: ScoredGame) => s.game.team == team
  }

  function GameIdOf(): ScoredGame -> string {
    (s: ScoredGame) => s.game.gameId
  }

  function StatColumn(k: nat): ScoredGame -> Option<real> {
    (s: ScoredGame) => Stat(s.game, k)
  }

  function AllowedOf(): ScoredGame -> Option<real> {
    (s: ScoredGame) => Some(s.oppPoints)
  }

  function DiffOf(): ScoredGame -> Option<real> {
    (s: ScoredGame) => s.pointDiff
  }

  function WinOf(): ScoredGame -> Option<real> {
    (s: ScoredGame) => Some(s.game.win as real)
  }

  /** `assists / turnovers.replace(0, NA)`: missing when either is missing or there are no
      turnovers, so there is no division by zero. */
  function Ratio(a: Option<real>, b: Option<real>): (r: Option<real>)
    ensures r.Some? <==> a.Some? && b.Some? && b.value != 0.0
    ensures r.Some? ==> r.value * b.value == a.value
  {
    if a.Some? && b.Some? && b.value != 0.0 then Some(a.value / b.value) else None
  }

  /** A team's summary over its scored games: distinct games, means that skip missing
      values, the net rating as the mean margin and the assist-to-turnover ratio. */
  function SummaryOf(gs: seq<ScoredGame>, team: string): TeamSummary {
    var g := Filter(gs, OfTeam(team));
    var diff := MeanPresent(MapSeq(g, DiffOf()));
    var assists := MeanPresent(MapSeq(g, StatColumn(Ast)));
    var turnovers := MeanPresent(MapSeq(g, StatColumn(Tov)));
    TeamSummary(team, NUnique(MapSeq(g, GameIdOf())), MeanPresent(MapSeq(g, StatColumn(Pts))),
      MeanPresent(MapSeq(g, AllowedOf())), diff, MeanPresent(MapSeq(g, StatColumn(Reb))), assists,
      turnovers, MeanPresent(MapSeq(g, WinOf())), diff, Ratio(assists, turnovers))
  }

  function SummaryIn(gs: seq<ScoredGame>): string -> TeamSummary {
    (t: string) => SummaryOf(gs, t)
  }

  function SummaryTeam(): TeamSummary -> string {
    (s: TeamSummary) => s.team
  }

  function PointDiffKey(): TeamSummary -> Option<real> {
    (s: TeamSummary) => s.avgPointDiff
  }

  /** `compute_team_summaries`: the teams' summaries by decreasing mean margin. */
  function TeamSummaries(gs: seq<ScoredGame>): (r: seq<TeamSummary>)
    ensures |r| == |ScoredTeams(gs)|
  {
    RankedLinesOf(ScoredTeams(gs), SummaryIn(gs), SummaryTeam(), PointDiffKey())
  }

  /** The summary table is in decreasing order of mean margin, missing margins last. */
  lemma TeamSummariesRanked(gs: seq<ScoredGame>)
    ensures var r := TeamSummaries(gs);
      forall i, j :: 0 <= i < j < |r| ==> DescLe(r[i].avgPointDiff, r[j].avgPointDiff)
  {
  }

  /** Each line of the summary table is the summary of a team that has a scored game, and
      no team has two lines. */
  lemma TeamSummariesLines(gs: seq<ScoredGame>)
    ensures var r := TeamSummaries(gs);
      (forall i :: 0 <= i < |r| ==> Plays(gs, r[i].team) && r[i] == SummaryOf(gs, r[i].team)) &&
      (forall i, j :: 0 <= i < j < |r| ==> r[i].team != r[j].team)
  {
  }

  /** Every team with a scored game has a line in the summary table. */
  lemma TeamSummariesCover(gs: seq<ScoredGame>, k: nat)
    requires k < |gs|
    ensures exists i :: 0 <= i < |TeamSummaries(gs)| && TeamSummaries(gs)[i].team == gs[k].game.team
  {
    var teams, r := ScoredTeams(gs), TeamSummaries(gs);
    assert Plays(gs, gs[k].game.team);
    var m :| 0 <= m < |teams| && teams[m] == gs[k].game.team;
    var i :| 0 <= i < |r| && SummaryTeam()(r[i]) == teams[m];
  }

  /** The win rate of a team is the share of its games won, and it played at least one and
      at most as many distinct games as it has rows. */
  lemma SummaryCounts(gs: seq<ScoredGame>, team: string)
    requires Plays(gs, team)
    requires forall k :: 0 <= k < |gs| ==> gs[k].game.win == 0 || gs[k].game.win == 1
    ensures var s := SummaryOf(gs, team);
      1 <= s.gamesPlayed <= |Filter(gs, OfTeam(team))| &&
      s.winRate.Some? && 0.0 <= s.winRate.value <= 1.0 && s.netRating == s.avgPointDiff
  {
    var g := Filter(gs, OfTeam(team));
    var k :| 0 <= k < |gs| && gs[k].game.team == team;
    assert gs[k] in g;
    var wins := MapSeq(g, WinOf());
    MeanBetween(wins, 0.0, 1.0);
    MeanPresentWhenSomeValue(wins);
    assert wins[0].Some?;
  }

  /** The sum of present margins is the difference of the sums when every value on both
      sides is present. */
  lemma {:induction false} SumOfDifferences(xs: seq<Option<real>>, ys: seq<Option<real>>, zs: seq<Option<real>>)
    requires |xs| == |ys| == |zs|
    requires forall i :: 0 <= i < |xs| ==> xs[i].Some? && ys[i].Some? && zs[i] == Sub(xs[i], ys[i])
    ensures SumPresent(zs) == SumPresent(xs) - SumPresent(ys)
    ensures CountPresent(zs) == CountPresent(xs) == CountPresent(ys) == |xs|
  {
    if xs != [] {
      SumOfDifferences(xs[1..], ys[1..], zs[1..]);
    }
  }

  /** When every game of the team has its PTS, the mean margin (and so the net rating) is
      the mean of points scored minus the mean of points allowed. */
  lemma PointDiffIsPointsMinusAllowed(gs: seq<ScoredGame>, team: string)
    requires forall k :: 0 <= k < |gs| ==> gs[k].pointDiff == Sub(Stat(gs[k].game, Pts), Some(gs[k].oppPoints))
    requires forall k :: 0 <= k < |gs| && gs[k].game.team == team ==> Stat(gs[k].game, Pts).Some?
    ensures var s := SummaryOf(gs, team);
      s.avgPointDiff == Sub(s.avgPoints, s.avgPointsAllowed)
  {
    var g := Filter(gs, OfTeam(team));
    var xs, ys, zs := MapSeq(g, StatColumn(Pts)), MapSeq(g, AllowedOf()), MapSeq(g, DiffOf());
    forall i | 0 <= i < |g| ensures xs[i].Some? && ys[i].Some? && zs[i] == Sub(xs[i], ys[i]) {
      assert g[i] in gs;
    }
    MeanOfDifferences(xs, ys, zs);
  }

  /** The mean of the margins is the difference of the means when every value on both
      sides is present. */
  lemma MeanOfDifferences(xs: seq<Option<real>>, ys: seq<Option<real>>, zs: seq<Option<real>>)
    requires |xs| == |ys| == |zs|
    requires forall i :: 0 <= i < |xs| ==> xs[i].Some? && ys[i].Some? && zs[i] == Sub(xs[i], ys[i])
    ensures MeanPresent(zs) == Sub(MeanPresent(xs), MeanPresent(ys))
  {
    SumOfDifferences(xs, ys, zs);
    if |xs| > 0 {
      DivideDifference(SumPresent(xs), SumPresent(ys), |xs| as real);
    }
  }

  lemma DivideDifference(a: real, b: real, n: real)
    requires n != 0.0
    ensures (a - b) / n == a / n - b / n
  {
  }

  /** The scored games of the pipeline's opponent-points step all satisfy the margin rule
      the lemma above assumes. */
  lemma ScoredGamesHaveMargins(rows: seq<TeamGame>)
    requires AttachOpponentPoints(rows).Ok?
    ensures var gs := AttachOpponentPoints(rows).value;
      forall k :: 0 <= k < |gs| ==> gs[k].pointDiff == Sub(Stat(gs[k].game, Pts), Some(gs[k].oppPoints))
  {
    var gs := AttachOpponentPoints(rows).value;
    forall k | 0 <= k < |gs| ensures gs[k].pointDiff == Sub(Stat(gs[k].game, Pts), Some(gs[k].oppPoints)) {
      OpponentPointsOfRow(rows, k);
    }
  }

  // ----- home and away -----

  /** One team's win rates away and at home and the difference. */
  datatype HomeAway = HomeAway(team: string, awayWinRate: Option<real>, homeWinRate: Option<real>, homeCourtEdge: Option<real>)

  function AtVenue(team: string, home: bool): ScoredGame -> bool {
    (s: ScoredGame) => s.game.team == team && s.game.home == home
  }

  /** The share of a team's games at one venue that it won; missing without such games. */
  function WinRateAt(gs: seq<ScoredGame>, team: string, home: bool): Option<real> {
    MeanPresent(MapSeq(Filter(gs, AtVenue(team, home)), WinOf()))
  }

  function HomeAwayOf(gs: seq<ScoredGame>, team: string): HomeAway {
    var away, home := WinRateAt(gs, team, false), WinRateAt(gs, team, true);
    HomeAway(team, away, home, Sub(home, away))
  }

  function HomeAwayIn(gs: seq<ScoredGame>): string -> HomeAway {
    (t: string) => HomeAwayOf(gs, t)
  }

  function HomeAwayTeam(): HomeAway -> string {
    (h: HomeAway) => h.team
  }

  function EdgeKey(): HomeAway -> Option<real> {
    (h: HomeAway) => h.homeCourtEdge
  }

  predicate IsHome(s: ScoredGame) {
    s.game.home
  }

  /** `compute_home_away_summary`. The pivot has a column per venue that occurs at all, so
      a table without home games lacks `home_win_rate` and one without away games lacks
      `away_win_rate`: reading the missing one is a `KeyError`, home first. Otherwise the
      teams' lines by decreasing home-court edge. */
  function HomeAwaySummary(gs: seq<ScoredGame>): (r: Result<seq<HomeAway>>)
    ensures r.Err? <==> (forall k :: 0 <= k < |gs| ==> !IsHome(gs[k])) || (forall k :: 0 <= k < |gs| ==> IsHome(gs[k]))
    ensures (forall k :: 0 <= k < |gs| ==> !IsHome(gs[k])) ==> r == Err(KeyError("home_win_rate"))
    ensures (exists k :: 0 <= k < |gs| && IsHome(gs[k])) && (forall k :: 0 <= k < |gs| ==> IsHome(gs[k])) ==>
      r == Err(KeyError("away_win_rate"))
  {
    if forall k :: 0 <= k < |gs| ==> !IsHome(gs[k]) then Err(KeyError("home_win_rate"))
    else if forall k :: 0 <= k < |gs| ==> IsHome(gs[k]) then Err(KeyError("away_win_rate"))
    else Ok(RankedLinesOf(ScoredTeams(gs), HomeAwayIn(gs), HomeAwayTeam(), EdgeKey()))
  }

  /** The home/away table is in decreasing order of edge, missing edges last; each line is
      the line of a team that has a scored game, and no team has two lines. */
  lemma HomeAwayLines(gs: seq<ScoredGame>)
    requires HomeAwaySummary(gs).Ok?
    ensures var r := HomeAwaySummary(gs).value;
      (forall i, j :: 0 <= i < j < |r| ==> DescLe(r[i].homeCourtEdge, r[j].homeCourtEdge)) &&
      (forall i :: 0 <= i < |r| ==> Plays(gs, r[i].team) && r[i] == HomeAwayOf(gs, r[i].team)) &&
      (forall i, j :: 0 <= i < j < |r| ==> r[i].team != r[j].team)
  {
  }

  /** Every team with a scored game has a line in the home/away table. */
  lemma HomeAwayCover(gs: seq<ScoredGame>, k: nat)
    requires HomeAwaySummary(gs).Ok? && k < |gs|
    ensures exists i :: 0 <= i < |HomeAwaySummary(gs).value| && HomeAwaySummary(gs).value[i].team == gs[k].game.team
  {
    var teams, r := ScoredTeams(gs), HomeAwaySummary(gs).value;
    assert Plays(gs, gs[k].game.team);
    var m :| 0 <= m < |teams| && teams[m] == gs[k].game.team;
    var i :| 0 <= i < |r| && HomeAwayTeam()(r[i]) == teams[m];
  }

  /** A team's win rate at a venue is known exactly when it played there, and then it lies
      between 0 and 1. */
  lemma VenueWinRate(gs: seq<ScoredGame>, team: string, home: bool)
    requires forall k :: 0 <= k < |gs| ==> gs[k].game.win == 0 || gs[k].game.win == 1
    ensures WinRateAt(gs, team, home).Some? <==> exists k :: 0 <= k < |gs| && AtVenue(team, home)(gs[k])
    ensures WinRateAt(gs, team, home).Some? ==> 0.0 <= WinRateAt(gs, team, home).value <= 1.0
  {
    var g := Filter(gs, AtVenue(team, home));
    var ws := MapSeq(g, WinOf());
    MeanPresentWhenSomeValue(ws);
    MeanBetween(ws, 0.0, 1.0);
    if exists k :: 0 <= k < |gs| && AtVenue(team, home)(gs[k]) {
      var k :| 0 <= k < |gs| && AtVenue(team, home)(gs[k]);
      assert gs[k] in g;
      assert ws[0].Some?;
    }
    if g != [] {
      assert g[0] in gs;
    }
  }

  /** A team's home-court edge is known exactly when it has a home game and an away game,
      and then it lies between -1 and 1. */
  lemma HomeCourtEdge(gs: seq<ScoredGame>, team: string)
    requires forall k :: 0 <= k < |gs| ==> gs[k].game.win == 0 || gs[k].game.win == 1
    ensures var h := HomeAwayOf(gs, team);
      (h.homeCourtEdge.Some? <==>
        (exists k :: 0 <= k < |gs| && AtVenue(team, true)(gs[k])) &&
        (exists k :: 0 <= k < |gs| && AtVenue(team, false)(gs[k]))) &&
      (h.homeCourtEdge.Some? ==> -1.0 <= h.homeCourtEdge.value <= 1.0)
  {
    VenueWinRate(gs, team, true);
    VenueWinRate(gs, team, false);
  }

  // ----- top scorers -----

  /** One player's line of the scoring table. */
  datatype PlayerScoring = PlayerScoring(
    name: string, avgPoints: Option<real>, avgMinutes: Option<real>, gamesPlayed: nat,
    team: string, chartLabel: string)

  /** The names of the player rows that have one, in order; rows without a name form no
      group. */
  function PlayerNames(logs: seq<PlayerLog>): (names: seq<string>)
    ensures forall n :: n in names <==> exists k :: 0 <= k < |logs| && logs[k].playerName == Some(n)
  {
    if logs == [] then []
    else
      var rest := PlayerNames(logs[1..]);
      assert forall k :: 1 <= k < |logs| ==> logs[k] == logs[1..][k - 1];
      match logs[0].playerName
      case None => rest
      case Some(n) => [n] + rest
  }

  function NamedAs(name: string): PlayerLog -> bool {
    (l: PlayerLog) => l.playerName == Some(name)
  }

  /** The rows of one player, in order. */
  function RowsOf(logs: seq<PlayerLog>, name: string): seq<PlayerLog> {
    if logs == [] then []
    else if logs[0].playerName == Some(name) then [logs[0]] + RowsOf(logs[1..], name)
    else RowsOf(logs[1..], name)
  }

  lemma {:induction false} RowsOfIsFilter(logs: seq<PlayerLog>, name: string)
    ensures RowsOf(logs, name) == Filter(logs, NamedAs(name))
  {
    if logs != [] {
      RowsOfIsFilter(logs[1..], name);
    }
  }

  function LogGameId(): PlayerLog -> string {
    (l: PlayerLog) => l.gameId
  }

  function LogTeam(): PlayerLog -> string {
    (l: PlayerLog) => l.team
  }

  /** A player's scoring line over the player's rows: mean points and minutes skipping
      missing values, distinct games, the most frequent team (the smallest among equally
      frequent ones, empty text if there is none) and the chart label. */
  function ScoringOf(logs: seq<PlayerLog>, name: string): PlayerScoring {
    var g := RowsOf(logs, name);
    var team := TeamOfPlayer(logs, name);
    PlayerScoring(name, MeanPresent(Column(g, "PTS")), MeanPresent(Column(g, "MIN")),
      GamesOfPlayer(logs, name), team, name + " (" + team + ")")
  }

  /** The number of distinct games among a player's rows. */
  function GamesOfPlayer(logs: seq<PlayerLog>, name: string): nat {
    NUnique(MapSeq(RowsOf(logs, name), LogGameId()))
  }

  /** The most frequent team among a player's rows, empty text if there is none. */
  function TeamOfPlayer(logs: seq<PlayerLog>, name: string): string {
    Mode(MapSeq(RowsOf(logs, name), LogTeam())).GetOr("")
  }

  function IsQualified(logs: seq<PlayerLog>): string -> bool {
    (name: string) => GamesOfPlayer(logs, name) >= 10
  }

  /** The players with at least 10 distinct games, each once, by name. */
  function QualifiedPlayers(logs: seq<PlayerLog>): (names: seq<string>)
    ensures NoDuplicates(names)
  {
    var all := SortedSet(PlayerNames(logs));
    FilterCountsAtMostOnce(all, IsQualified(logs));
    Filter(all, IsQualified(logs))
  }

  /** A player is qualified exactly when some row carries the player's name and the player
      has at least 10 distinct games. */
  lemma QualifiedPlayersMembers(logs: seq<PlayerLog>, name: string)
    ensures name in QualifiedPlayers(logs) <==> name in PlayerNames(logs) && GamesOfPlayer(logs, name) >= 10
  {
  }

  lemma FilterCountsAtMostOnce(s: seq<string>, p: string -> bool)
    requires NoDuplicates(s)
    ensures NoDuplicates(Filter(s, p))
  {
    forall x ensures multiset(Filter(s, p))[x] <= multiset(s)[x] {
      FilterCount(s, p, x);
    }
    forall i, j | 0 <= i < j < |Filter(s, p)| ensures Filter(s, p)[i] != Filter(s, p)[j] {
      var f := Filter(s, p);
      NoDuplicatesCount(s, f[i]);
      assert f == f[..j] + [f[j]] + f[j + 1..];
      assert f[i] in f[..j];
      assert multiset(f)[f[j]] >= multiset(f[..j])[f[j]] + 1;
    }
  }

  function ScoringIn(logs: seq<PlayerLog>): string -> PlayerScoring {
    (name: string) => ScoringOf(logs, name)
  }

  function ScoringName(): PlayerScoring -> string {
    (s: PlayerScoring) => s.name
  }

  function PointsKey(): PlayerScoring -> Option<real> {
    (s: PlayerScoring) => s.avgPoints
  }

  /** `compute_player_scoring`: the first `topN` (a Python `head`, so a negative `topN`
      leaves out that many from the end) of the qualified players' lines by decreasing
      mean points. */
  function PlayerScoringTable(logs: seq<PlayerLog>, topN: int): (r: seq<PlayerScoring>)
    ensures |r| == SliceEnd(topN, |QualifiedPlayers(logs)|)
  {
    var ranked := RankedLinesOf(QualifiedPlayers(logs), ScoringIn(logs), ScoringName(), PointsKey());
    ranked[..SliceEnd(topN, |ranked|)]
  }

  /** The first `n` ranked lines keep the ranking's order, content and distinctness. */
  lemma {:induction false} RankedPrefix<R(!new)>(keys: seq<string>, lineOf: string -> R, keyOf: R -> string, score: R -> Option<real>, n: nat)
    requires NoDuplicates(keys) && forall t :: keyOf(lineOf(t)) == t
    requires n <= |keys|
    ensures var r := RankedLinesOf(keys, lineOf, keyOf, score)[..n];
      (forall i, j :: 0 <= i < j < |r| ==> DescLe(score(r[i]), score(r[j]))) &&
      (forall i :: 0 <= i < |r| ==> keyOf(r[i]) in keys && r[i] == lineOf(keyOf(r[i]))) &&
      (forall i, j :: 0 <= i < j < |r| ==> keyOf(r[i]) != keyOf(r[j]))
  {
    var ranked := RankedLinesOf(keys, lineOf, keyOf, score);
    var r := ranked[..n];
    assert forall i :: 0 <= i < |r| ==> r[i] == ranked[i];
  }

  /** A key whose line is not among the first `n` ranked lines scores no higher than any of
      them. */
  lemma {:induction false} RankedOmitted<R(!new)>(keys: seq<string>, lineOf: string -> R, keyOf: R -> string, score: R -> Option<real>, n: nat, key: string)
    requires NoDuplicates(keys) && forall t :: keyOf(lineOf(t)) == t
    requires n <= |keys| && key in keys
    requires forall i :: 0 <= i < n ==> keyOf(RankedLinesOf(keys, lineOf, keyOf, score)[i]) != key
    ensures forall i :: 0 <= i < n ==> DescLe(score(RankedLinesOf(keys, lineOf, keyOf, score)[i]), score(lineOf(key)))
  {
    var ranked := RankedLinesOf(keys, lineOf, keyOf, score);
    var k :| 0 <= k < |keys| && keys[k] == key;
    var b :| 0 <= b < |ranked| && keyOf(ranked[b]) == keys[k];
    assert ranked[b] == lineOf(key);
    if b < n {
      assert false;
    }
  }

  /** The scoring table is in decreasing order of mean points, missing means last; each
      line is the line of a player with a name and at least 10 distinct games, and no
      player has two lines. */
  lemma {:induction false} PlayerScoringLines(logs: seq<PlayerLog>, topN: int)
    ensures var r := PlayerScoringTable(logs, topN);
      (forall i, j :: 0 <= i < j < |r| ==> DescLe(r[i].avgPoints, r[j].avgPoints)) &&
      (forall i :: 0 <= i < |r| ==> r[i].name in PlayerNames(logs) && GamesOfPlayer(logs, r[i].name) >= 10) &&
      (forall i :: 0 <= i < |r| ==> r[i] == ScoringOf(logs, r[i].name)) &&
      (forall i, j :: 0 <= i < j < |r| ==> r[i].name != r[j].name)
  {
    var names := QualifiedPlayers(logs);
    RankedPrefix(names, ScoringIn(logs), ScoringName(), PointsKey(), SliceEnd(topN, |names|));
    forall n | n in names ensures n in PlayerNames(logs) && GamesOfPlayer(logs, n) >= 10 {
      QualifiedPlayersMembers(logs, n);
    }
  }

  /** The table holds the best scorers: a qualified player left out of it has mean points
      no higher than any listed player's. */
  lemma {:induction false} TopScorers(logs: seq<PlayerLog>, topN: int, name: string)
    requires name in PlayerNames(logs) && GamesOfPlayer(logs, name) >= 10
    requires forall i :: 0 <= i < |PlayerScoringTable(logs, topN)| ==> PlayerScoringTable(logs, topN)[i].name != name
    ensures forall i :: 0 <= i < |PlayerScoringTable(logs, topN)| ==>
      DescLe(PlayerScoringTable(logs, topN)[i].avgPoints, ScoringOf(logs, name).avgPoints)
  {
    var names := QualifiedPlayers(logs);
    var n := SliceEnd(topN, |names|);
    QualifiedPlayersMembers(logs, name);
    var ranked := RankedLinesOf(names, ScoringIn(logs), ScoringName(), PointsKey());
    var r := PlayerScoringTable(logs, topN);
    assert r == ranked[..n];
    var bound := PointsKey()(ScoringIn(logs)(name));
    assert bound == ScoringOf(logs, name).avgPoints;
    forall i | 0 <= i < n ensures ScoringName()(ranked[i]) != name {
      assert r[i].name != name;
    }
    RankedOmitted(names, ScoringIn(logs), ScoringName(), PointsKey(), n, name);
    forall i | 0 <= i < n ensures DescLe(r[i].avgPoints, bound) {
      assert DescLe(PointsKey()(ranked[i]), bound);
    }
  }

  /** A listed player's team is the team the player appears under most often, the smallest
      of equally frequent ones, and the label is the name followed by it in parentheses. */
  lemma ScoringTeam(logs: seq<PlayerLog>, name: string)
    requires name in PlayerNames(logs)
    ensures var s := ScoringOf(logs, name);
      var teams := MapSeq(Filter(logs, NamedAs(name)), LogTeam());
      s.team in teams &&
      (forall t :: t in teams ==> multiset(teams)[t] <= multiset(teams)[s.team]) &&
      (forall t :: t in teams && multiset(teams)[t] == multiset(teams)[s.team] ==> StrLe(s.team, t)) &&
      s.chartLabel == name + " (" + s.team + ")"
  {
    var k :| 0 <= k < |logs| && logs[k].playerName == Some(name);
    RowsOfIsFilter(logs, name);
    assert logs[k] in Filter(logs, NamedAs(name));
    assert |MapSeq(Filter(logs, NamedAs(name)), LogTeam())| > 0;
  }
}
