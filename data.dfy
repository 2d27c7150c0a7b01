/** `nba_predictor/data.py`: raw player box-score rows are loaded and tagged with team,
    opponent, venue and result; they are aggregated into one row per team per game; pairs
    of team rows for the same game become "team minus opponent" matchup rows; and season
    averages per team yield a hypothetical matchup row. */
module Data {
  import opened Common
  import opened Text
  import opened Sorting
  import opened Stats
  import opened Table

  // ----- column names -----

  /** Statistics summed from player to team level, in declaration order. */
  const SumColumns: seq<string> := ["MIN", "FGM", "FGA", "FG3M", "FG3A", "FTM", "FTA", "OREB",
    "DREB", "REB", "AST", "STL", "BLK", "TOV", "PF", "PTS", "PLUS_MINUS"]

  /** Shooting percentages, averaged from player to team level. */
  const MeanColumns: seq<string> := ["FG_PCT", "FG3_PCT", "FT_PCT"]

  /** The columns the loader coerces to numbers, in its loop order (`PLUS_MINUS` comes twice). */
  const CoercedColumns: seq<string> := SumColumns + MeanColumns + ["PLUS_MINUS"]

  /** The keys of the team-game grouping, in order. */
  const GroupColumns: seq<string> := ["GAME_ID", "TEAM_ABBREVIATION", "OPPONENT_ABBREVIATION", "HOME", "WIN"]

  /** The aggregation's output columns: the group keys, then the aggregates in the order the
      aggregation table lists them, with the player-name count renamed. */
  const AggregatedColumns: seq<string> := GroupColumns + SumColumns + MeanColumns + ["PLAYER_COUNT", "GAME_DATE"]

  /** The identifying columns that are never features. */
  const MetadataColumns: set<string> := {"GAME_ID", "TEAM_ABBREVIATION", "OPPONENT_ABBREVIATION", "HOME", "WIN", "GAME_DATE"}

  /** The leading columns of a team-game and of a matchup frame. */
  const IdentifierColumns: seq<string> := ["GAME_ID", "GAME_DATE", "TEAM_ABBREVIATION", "OPPONENT_ABBREVIATION", "HOME", "WIN"]

  // ----- loading -----

  /** A cell of a numeric column as the CSV reader leaves it: a number, an empty field, or
      text it could not read as a number. */
  datatype RawCell = Number(x: real) | Blank | Str(text: string)

  /** One CSV line of player box-score data. `gameId` is the id as spelled in the file and
      `gameDate` the already-parsed calendar day; both, and `matchup`, are always present.
      `cells` holds the numeric columns by name. */
  datatype RawPlayerLog = RawPlayerLog(
    gameId: string, gameDate: int, matchup: string, wl: Option<string>,
    playerName: Option<string>, cells: map<string, RawCell>)

  /** A loaded player row: the numeric statistics (missing as `None`) and the derived
      team, opponent, home flag and win flag. */
  datatype PlayerLog = PlayerLog(
    gameId: string, gameDate: int, matchup: string, playerName: Option<string>,
    stats: map<string, Option<real>>, team: string, opponent: string, home: bool, win: int)

  /** `pandas.to_numeric(errors="coerce")` on one cell: text that reads as a decimal number
      becomes that number, any other text becomes missing. */
  function Coerce(c: RawCell): (r: RawCell)
    ensures !r.Str?
    ensures !c.Str? ==> r == c
    ensures c.Str? ==> (r.Blank? <==> ParseNumber(c.text).None?)
    ensures c.Str? && r.Number? ==> ParseNumber(c.text) == Some(r.x)
  {
    match c
    case Str(t) => (match ParseNumber(t) case Some(v) => Number(v) case None => Blank)
    case _ => c
  }

  /** The numeric value of a cell, `None` for anything that is not a number. */
  function CellValue(c: RawCell): Option<real> {
    if c.Number? then Some(c.x) else None
  }

  /** The team abbreviation: the text before the first space of the matchup. */
  function ParseTeam(matchup: string): (team: string) {
    SplitFirst(matchup, " ")
  }

  const UnrecognisedPrefix := "Unrecognised matchup format: "

  /** The opponent abbreviation: the text after the last "vs. " of a home matchup or after
      the last "@ " of an away matchup; anything else is malformed. */
  function ParseOpponent(matchup: string): (r: Result<string>) {
    if Contains(matchup, "vs.") then Ok(SplitLast(matchup, "vs. "))
    else if Contains(matchup, "@") then Ok(SplitLast(matchup, "@ "))
    else Err(UnrecognisedMatchup(matchup))
  }

  /** The error for a matchup in neither format: the prefix and the matchup's `repr`. */
  function UnrecognisedMatchup(matchup: string): Error {
    ValueError(UnrecognisedPrefix + Repr(matchup))
  }

  /** The text after the last occurrence of `sep`, or all of `s` when there is none: the
      reference reading of "the opponent follows the separator". */
  function AfterLast(s: string, sep: string): (r: string)
    ensures r <= s || LastIndexOf(s, sep).Some?
  {
    match LastIndexOf(s, sep)
    case Some(i) => s[i + |sep|..]
    case None => s
  }

  /** The team is the first word of the matchup: a prefix with no space in it, followed by a
      space or by the end of the text. */
  lemma ParseTeamIsFirstWord(matchup: string)
    ensures ParseTeam(matchup) <= matchup
    ensures ' ' !in ParseTeam(matchup)
    ensures ParseTeam(matchup) == matchup || matchup[|ParseTeam(matchup)|] == ' '
  {
    var team := ParseTeam(matchup);
    forall j | 0 <= j < |team| ensures team[j] != ' ' {
      if team[j] == ' ' {
        assert matchup[j..j + 1] == [' '];
        assert OccursAt(matchup, " ", j);
      }
    }
    match FirstIndexFrom(matchup, " ", 0)
    case Some(i) => assert matchup[i..i + 1] == " ";
    case None =>
  }

  /** A home matchup (one containing "vs.") names the opponent after its last "vs. "; an away
      matchup (one containing "@" but not "vs.") after its last "@ "; any other matchup is
      refused with a `ValueError` that shows the matchup as Python's `repr` does, so that
      the text between its quotes reads back as the matchup. */
  lemma ParseOpponentCases(matchup: string)
    ensures Contains(matchup, "vs.") ==> ParseOpponent(matchup) == Ok(AfterLast(matchup, "vs. "))
    ensures !Contains(matchup, "vs.") && Contains(matchup, "@") ==>
      ParseOpponent(matchup) == Ok(AfterLast(matchup, "@ "))
    ensures !Contains(matchup, "vs.") && !Contains(matchup, "@") ==>
      ParseOpponent(matchup).Err? && ParseOpponent(matchup).error.ValueError? &&
      var m := ParseOpponent(matchup).error.message;
      |m| >= |UnrecognisedPrefix| + 2 && m[..|UnrecognisedPrefix|] == UnrecognisedPrefix &&
      m == UnrecognisedPrefix + Repr(matchup) &&
      Unescape(m[|UnrecognisedPrefix| + 1..|m| - 1]) == matchup
  {
    if Contains(matchup, "vs.") {
      FirstCharUniqueBorderFree("vs. ");
      SplitLastIsTextAfterLastOccurrence(matchup, "vs. ");
    } else if Contains(matchup, "@") {
      FirstCharUniqueBorderFree("@ ");
      SplitLastIsTextAfterLastOccurrence(matchup, "@ ");
    } else {
      UnrecognisedMessageReadsBack(matchup);
    }
  }

  /** The message for a malformed matchup starts with the fixed prefix, and the text between
      the quotes after it reads back as the matchup. */
  lemma UnrecognisedMessageReadsBack(matchup: string)
    ensures var m := UnrecognisedMatchup(matchup).message;
      |m| >= |UnrecognisedPrefix| + 2 && m[..|UnrecognisedPrefix|] == UnrecognisedPrefix &&
      Unescape(m[|UnrecognisedPrefix| + 1..|m| - 1]) == matchup
  {
    var r := Repr(matchup);
    var m := UnrecognisedPrefix + r;
    ReprRoundTrip(matchup);
    assert m[|UnrecognisedPrefix| + 1..|m| - 1] == r[1..|r| - 1];
  }

  /** A matchup without any "v" or "@" is in neither format. */
  lemma NeitherFormat(m: string)
    requires forall i :: 0 <= i < |m| ==> m[i] != 'v' && m[i] != '@'
    ensures ParseOpponent(m) == Err(UnrecognisedMatchup(m))
  {
    forall i | 0 <= i ensures !OccursAt(m, "vs.", i) && !OccursAt(m, "@", i) {
      if i < |m| {
        if i + 3 <= |m| { assert m[i..i + 3][0] == m[i]; }
        assert m[i..i + 1][0] == m[i];
      }
    }
  }

  /** A malformed matchup with a backslash in it has the backslash doubled in the message,
      as Python's `repr` does. */
  lemma UnrecognisedBackslashEscaped()
    ensures ParseOpponent("A\\B") == Err(ValueError("Unrecognised matchup format: 'A\\\\B'"))
  {
    var m := "A\\B";
    NeitherFormat(m);
    assert QuoteFor(m) == '\'';
    assert m[1..] == "\\B" && m[1..][1..] == "B";
    assert Escape(m, '\'') == "A\\\\B";
    assert Repr(m) == "'A\\\\B'";
    assert UnrecognisedPrefix + "'A\\\\B'" == "Unrecognised matchup format: 'A\\\\B'";
  }

  /** A malformed matchup with a single quote, but no double quote, backslash or control
      character in it, is shown unchanged between double quotes, as Python's `repr` does. */
  lemma UnrecognisedQuoteDoubleQuoted(matchup: string)
    requires !Contains(matchup, "vs.") && !Contains(matchup, "@") && '\'' in matchup
    requires forall i :: 0 <= i < |matchup| ==>
      matchup[i] != '"' && matchup[i] != '\\' && !IsControl(matchup[i])
    ensures ParseOpponent(matchup) == Err(ValueError(UnrecognisedPrefix + "\"" + matchup + "\""))
  {
    ReprOfSingleQuoted(matchup);
    assert UnrecognisedPrefix + Repr(matchup) == UnrecognisedPrefix + "\"" + matchup + "\"";
  }

  /** Every matchup the opponent parser reads as a home game is flagged as home. */
  lemma HomeFlagCoversLiteralHome(matchup: string)
    ensures Contains(matchup, "vs.") ==> HomeFlag(matchup)
  {
    if Contains(matchup, "vs.") {
      var i :| OccursAt(matchup, "vs.", i);
      assert matchup[i..i + 3] == "vs.";
      assert matchup[i..i + 3][2] == matchup[i + 2];
      assert VsAnyAt(matchup, i);
    }
  }

  /** The home flag reads the dot of "vs." as any character, so it is wider than the literal
      test: an away matchup with "vs" and another character after its "@ " is flagged home. */
  lemma HomeFlagWiderThanLiteral()
    ensures HomeFlag("BOS @ vsX") && !Contains("BOS @ vsX", "vs.") && Contains("BOS @ vsX", "@")
  {
    var m := "BOS @ vsX";
    assert VsAnyAt(m, 6);
    assert m[4..6] == "@ ";
    assert OccursAt(m, "@", 4);
    forall i | 0 <= i ensures !OccursAt(m, "vs.", i) {
      if i + 3 <= |m| {
        assert m[i..i + 3][2] == m[i + 2] != '.';
      }
    }
  }

  /** The regular expression `vs.` matches at index `i`: "vs" and then any character but a
      line break. */
  predicate VsAnyAt(s: string, i: int) {
    0 <= i && i + 3 <= |s| && s[i] == 'v' && s[i + 1] == 's' && s[i + 2] != '\n'
  }

  function VsAnyFrom(s: string, k: nat): (b: bool)
    ensures b <==> exists i :: k <= i && VsAnyAt(s, i)
    decreases |s| - k
  {
    if k + 3 > |s| then false
    else VsAnyAt(s, k) || VsAnyFrom(s, k + 1)
  }

  /** The home flag: the matchup contains "vs." read as a regular expression, whose dot
      stands for any character. */
  function HomeFlag(matchup: string): (home: bool)
    ensures home <==> exists i :: VsAnyAt(matchup, i)
  {
    VsAnyFrom(matchup, 0)
  }

  /** The win flag: 1 exactly when the result column reads "W". */
  function WinFlag(wl: Option<string>): (win: int)
    ensures win == 1 <==> wl == Some("W")
    ensures win == 0 || win == 1
  {
    if wl == Some("W") then 1 else 0
  }

  /** The cells of one row after `columns` have been coerced. */
  function CoerceCells(cells: map<string, RawCell>, columns: seq<string>): (r: map<string, RawCell>)
    ensures r.Keys == cells.Keys
    ensures forall c :: c in columns && c in cells ==> !r[c].Str?
  {
    map c | c in cells :: if c in columns then Coerce(cells[c]) else cells[c]
  }

  /** The numeric values of the `columns` of a row, missing where a cell is not a number. */
  function Values(cells: map<string, RawCell>, columns: seq<string>): (stats: map<string, Option<real>>)
    ensures stats.Keys == cells.Keys * set c | c in columns
  {
    map c | c in cells && c in columns :: CellValue(cells[c])
  }

  /** `l` is `raw` loaded: the identifying fields carried over, the team, opponent, home
      and win flags derived from the matchup and the result, and each coerced column the
      row has read as a number, missing where the coerced cell is not one. */
  predicate IsLoaded(l: PlayerLog, raw: RawPlayerLog) {
    && l.gameId == raw.gameId && l.gameDate == raw.gameDate && l.matchup == raw.matchup
    && l.playerName == raw.playerName
    && l.team == ParseTeam(raw.matchup) && Ok(l.opponent) == ParseOpponent(raw.matchup)
    && l.home == HomeFlag(raw.matchup) && l.win == WinFlag(raw.wl)
    && l.stats.Keys == raw.cells.Keys * (set c | c in CoercedColumns)
    && forall c :: c in l.stats ==> l.stats[c] == CellValue(Coerce(raw.cells[c]))
  }

  /** One loaded row, given its parsed opponent. */
  function LoadedLog(raw: RawPlayerLog, opponent: string): (l: PlayerLog)
    ensures ParseOpponent(raw.matchup) == Ok(opponent) ==> IsLoaded(l, raw)
  {
    PlayerLog(raw.gameId, raw.gameDate, raw.matchup, raw.playerName,
      Values(CoerceCells(raw.cells, CoercedColumns), CoercedColumns),
      ParseTeam(raw.matchup), opponent, HomeFlag(raw.matchup), WinFlag(raw.wl))
  }

  /** The first row at or after `k` whose matchup is malformed. */
  function FirstMalformed(raw: seq<RawPlayerLog>, k: nat): (r: Option<nat>)
    ensures r.Some? ==> k <= r.value < |raw| && ParseOpponent(raw[r.value].matchup).Err?
    ensures r.Some? ==> forall j :: k <= j < r.value ==> ParseOpponent(raw[j].matchup).Ok?
    ensures r.None? ==> forall j :: k <= j < |raw| ==> ParseOpponent(raw[j].matchup).Ok?
    decreases |raw| - k
  {
    if k >= |raw| then None
    else if ParseOpponent(raw[k].matchup).Err? then Some(k)
    else FirstMalformed(raw, k + 1)
  }

  /** The loaded frame: every row tagged, or the error of the first row whose matchup is
      malformed. */
  function LoadedLogs(raw: seq<RawPlayerLog>): (r: Result<seq<PlayerLog>>)
    ensures r.Ok? <==> forall i :: 0 <= i < |raw| ==> ParseOpponent(raw[i].matchup).Ok?
    ensures r.Ok? ==> |r.value| == |raw|
    ensures r.Ok? ==> forall i :: 0 <= i < |raw| ==> IsLoaded(r.value[i], raw[i])
    ensures r.Err? ==> exists i :: (0 <= i < |raw| && ParseOpponent(raw[i].matchup) == Err(r.error) &&
      forall j :: 0 <= j < i ==> ParseOpponent(raw[j].matchup).Ok?)
  {
    match FirstMalformed(raw, 0)
    case Some(i) => Err(ParseOpponent(raw[i].matchup).error)
    case None => Ok(seq(|raw|, i requires 0 <= i < |raw| => LoadedLog(raw[i], ParseOpponent(raw[i].matchup).value)))
  }

  /** Coerces `columns` of every row, one column at a time; coercing a column twice
      changes nothing. */
  method CoerceColumns(raw: seq<RawPlayerLog>, columns: seq<string>) returns (table: seq<map<string, RawCell>>)
    ensures |table| == |raw|
    ensures forall i :: 0 <= i < |raw| ==> table[i] == CoerceCells(raw[i].cells, columns)
  {
    table := seq(|raw|, i requires 0 <= i < |raw| => raw[i].cells);
    forall i | 0 <= i < |raw| ensures table[i] == CoerceCells(raw[i].cells, columns[..0]) {
      CoerceNothing(raw[i].cells);
    }
    for c := 0 to |columns|
      invariant |table| == |raw|
      invariant forall i :: 0 <= i < |raw| ==> table[i] == CoerceCells(raw[i].cells, columns[..c])
    {
      var column := columns[c];
      assert columns[..c + 1] == columns[..c] + [column];
      forall i | 0 <= i < |raw| ensures CoerceOne(table[i], column) == CoerceCells(raw[i].cells, columns[..c + 1]) {
        CoerceStep(raw[i].cells, columns[..c], column);
      }
      table := seq(|raw|, i requires 0 <= i < |raw| => CoerceOne(table[i], column));
    }
    assert columns[..|columns|] == columns;
  }

  /** `df[column] = to_numeric(df[column])` on one row: the column's cell coerced, if the
      row has it. */
  function CoerceOne(cells: map<string, RawCell>, column: string): map<string, RawCell> {
    if column in cells then cells[column := Coerce(cells[column])] else cells
  }

  lemma CoerceNothing(cells: map<string, RawCell>)
    ensures CoerceCells(cells, []) == cells
  {
  }

  /** Coercing one more column extends the coerced columns; a column coerced twice is
      coerced once, since a coerced cell is never text. */
  lemma CoerceStep(cells: map<string, RawCell>, columns: seq<string>, column: string)
    ensures CoerceOne(CoerceCells(cells, columns), column) == CoerceCells(cells, columns + [column])
  {
    var before := CoerceCells(cells, columns);
    var after := CoerceCells(cells, columns + [column]);
    assert CoerceOne(before, column).Keys == after.Keys;
    forall c | c in after ensures CoerceOne(before, column)[c] == after[c] {
      assert c in columns + [column] <==> c in columns || c == column;
    }
  }

  /** A malformed row after well-formed ones is the first malformed row. */
  lemma {:induction false} FirstMalformedAt(raw: seq<RawPlayerLog>, k: nat, i: nat)
    requires k <= i < |raw| && ParseOpponent(raw[i].matchup).Err?
    requires forall j :: k <= j < i ==> ParseOpponent(raw[j].matchup).Ok?
    ensures FirstMalformed(raw, k) == Some(i)
    decreases i - k
  {
    if k < i {
      FirstMalformedAt(raw, k + 1, i);
    }
  }

  /** Appending row `i`'s loaded form to the first `i` loaded rows gives the first `i + 1`. */
  lemma LoadedOneMore(raw: seq<RawPlayerLog>, rows: seq<PlayerLog>, i: nat)
    requires i < |raw| && |rows| == i && ParseOpponent(raw[i].matchup).Ok?
    requires forall j :: 0 <= j < i ==> ParseOpponent(raw[j].matchup).Ok?
    requires forall j :: 0 <= j < i ==> rows[j] == LoadedLog(raw[j], ParseOpponent(raw[j].matchup).value)
    ensures forall j :: 0 <= j < i + 1 ==> ParseOpponent(raw[j].matchup).Ok?
    ensures var next := rows + [LoadedLog(raw[i], ParseOpponent(raw[i].matchup).value)];
      forall j :: 0 <= j < i + 1 ==> next[j] == LoadedLog(raw[j], ParseOpponent(raw[j].matchup).value)
  {
  }

  /** Reads the numeric columns, then tags every row, stopping at the first malformed
      matchup. */
  method LoadPlayerLogs(raw: seq<RawPlayerLog>) returns (r: Result<seq<PlayerLog>>)
    ensures r == LoadedLogs(raw)
  {
    var table := CoerceColumns(raw, CoercedColumns);
    var rows: seq<PlayerLog> := [];
    for i := 0 to |raw|
      invariant |rows| == i
      invariant forall j :: 0 <= j < i ==> ParseOpponent(raw[j].matchup).Ok?
      invariant forall j :: 0 <= j < i ==> rows[j] == LoadedLog(raw[j], ParseOpponent(raw[j].matchup).value)
    {
      var opponent := ParseOpponent(raw[i].matchup);
      if opponent.Err? {
        FirstMalformedAt(raw, 0, i);
        return Err(opponent.error);
      }
      var stats := Values(table[i], CoercedColumns);
      var log := PlayerLog(raw[i].gameId, raw[i].gameDate, raw[i].matchup, raw[i].playerName,
        stats, ParseTeam(raw[i].matchup), opponent.value, HomeFlag(raw[i].matchup), WinFlag(raw[i].wl));
      assert log == LoadedLog(raw[i], opponent.value);
      LoadedOneMore(raw, rows, i);
      rows := rows + [log];
    }
    assert FirstMalformed(raw, 0).None?;
    assert rows == seq(|raw|, j requires 0 <= j < |raw| => LoadedLog(raw[j], ParseOpponent(raw[j].matchup).value));
    r := Ok(rows);
  }

  // ----- team-game aggregation -----

  /** The value of a numeric column of a player row; a column the row lacks reads as missing. */
  function StatOf(l: PlayerLog, column: string): Option<real> {
    if column in l.stats then l.stats[column] else None
  }

  /** The values of one numeric column over some player rows, in order. */
  function Column(logs: seq<PlayerLog>, column: string): (xs: seq<Option<real>>)
    ensures |xs| == |logs|
    ensures forall i :: 0 <= i < |logs| ==> xs[i] == StatOf(logs[i], column)
  {
    if logs == [] then [] else [StatOf(logs[0], column)] + Column(logs[1..], column)
  }

  /** The grouping key of a player row: game, team, opponent, venue, result. */
  datatype GroupKey = GroupKey(gameId: string, team: string, opponent: string, home: bool, win: int)

  function KeyOf(l: PlayerLog): GroupKey {
    GroupKey(l.gameId, l.team, l.opponent, l.home, l.win)
  }

  /** The grouping's order of keys: by game, team and opponent as text, then away before
      home, then by the win flag. */
  predicate KeyLe(a: GroupKey, b: GroupKey) {
    if a.gameId != b.gameId then StrLe(a.gameId, b.gameId)
    else if a.team != b.team then StrLe(a.team, b.team)
    else if a.opponent != b.opponent then StrLe(a.opponent, b.opponent)
    else if a.home != b.home then !a.home
    else a.win <= b.win
  }

  lemma KeyLeTransitive(a: GroupKey, b: GroupKey, c: GroupKey)
    ensures KeyLe(a, b) && KeyLe(b, c) ==> KeyLe(a, c)
  {
    StrLeIsTotalOrder();
  }

  /** `KeyLe` is a total order on keys. */
  lemma KeyLeIsTotalOrder()
    ensures TotalPreorder((a: GroupKey, b: GroupKey) => KeyLe(a, b))
    ensures forall a, b :: KeyLe(a, b) && KeyLe(b, a) ==> a == b
  {
    StrLeIsTotalOrder();
    forall a, b, c ensures KeyLe(a, b) && KeyLe(b, c) ==> KeyLe(a, c) {
      KeyLeTransitive(a, b, c);
    }
  }

  /** The key of every player row, in order. */
  function KeysOf(logs: seq<PlayerLog>): (keys: seq<GroupKey>)
    ensures forall k :: k in keys <==> exists i :: 0 <= i < |logs| && KeyOf(logs[i]) == k
  {
    var all := MapSeq(logs, KeyOf);
    forall k | k in all ensures exists i :: 0 <= i < |logs| && KeyOf(logs[i]) == k {
      var i :| 0 <= i < |all| && all[i] == k;
      assert KeyOf(logs[i]) == k;
    }
    forall k | exists i :: 0 <= i < |logs| && KeyOf(logs[i]) == k ensures k in all {
      var i :| 0 <= i < |logs| && KeyOf(logs[i]) == k;
      assert all[i] == k;
    }
    all
  }

  /** The distinct keys of the player rows, in the grouping's order: each once, ascending. */
  function GroupKeys(logs: seq<PlayerLog>): (keys: seq<GroupKey>)
    ensures NoDuplicates(keys)
    ensures forall k :: k in keys <==> exists i :: 0 <= i < |logs| && KeyOf(logs[i]) == k
    ensures forall i, j :: 0 <= i < j < |keys| ==> KeyLe(keys[i], keys[j]) && keys[i] != keys[j]
  {
    var distinct := Distinct(KeysOf(logs));
    var le := (a: GroupKey, b: GroupKey) => KeyLe(a, b);
    KeyLeIsTotalOrder();
    SortBySorted(distinct, le);
    var keys := SortBy(distinct, le);
    PermutationKeepsNoDuplicates(distinct, keys);
    forall k ensures k in keys <==> k in KeysOf(logs) {
      assert k in keys <==> k in multiset(distinct);
    }
    keys
  }

  /** The player rows of one team in one game, in their original order. */
  function Group(logs: seq<PlayerLog>, key: GroupKey): (group: seq<PlayerLog>)
    ensures forall l :: l in group <==> l in logs && KeyOf(l) == key
    ensures forall l :: multiset(group)[l] == if KeyOf(l) == key then multiset(logs)[l] else 0
  {
    var belongs := (l: PlayerLog) => KeyOf(l) == key;
    forall l ensures multiset(Filter(logs, belongs))[l] == if KeyOf(l) == key then multiset(logs)[l] else 0 {
      FilterCount(logs, belongs, l);
    }
    Filter(logs, belongs)
  }

  predicate IsNamed(l: PlayerLog) {
    l.playerName.Some?
  }

  /** The number of player rows that carry a player name. */
  function NamedCount(group: seq<PlayerLog>): (n: nat)
    ensures n <= |group|
  {
    |Filter(group, IsNamed)|
  }

  /** A team's row for one game: its key, the first player's game date, and the features in
      the order of `TeamFeatureColumns`. */
  datatype TeamGame = TeamGame(
    gameId: string, gameDate: int, team: string, opponent: string, home: bool, win: int,
    features: seq<Option<real>>)

  function KeyOfGame(g: TeamGame): GroupKey {
    GroupKey(g.gameId, g.team, g.opponent, g.home, g.win)
  }

  /** The feature columns of a team-game: the summed statistics, the averaged percentages,
      and the number of named players. */
  const TeamFeatureColumns: seq<string> := SumColumns + MeanColumns + ["PLAYER_COUNT"]

  /** The `columns` of a group of player rows, each summed ignoring missing values (all
      missing sums to 0). */
  function Sums(group: seq<PlayerLog>, columns: seq<string>): (xs: seq<Option<real>>)
    ensures |xs| == |columns|
    ensures forall j :: 0 <= j < |columns| ==> xs[j] == Some(SumPresent(Column(group, columns[j])))
  {
    if columns == [] then [] else [Some(SumPresent(Column(group, columns[0])))] + Sums(group, columns[1..])
  }

  /** The `columns` of a group of player rows, each averaged over its present values. */
  function Means(group: seq<PlayerLog>, columns: seq<string>): (xs: seq<Option<real>>)
    ensures |xs| == |columns|
    ensures forall j :: 0 <= j < |columns| ==> xs[j] == MeanPresent(Column(group, columns[j]))
  {
    if columns == [] then [] else [MeanPresent(Column(group, columns[0]))] + Means(group, columns[1..])
  }

  /** The aggregates of a group of player rows: the `sums` columns summed, the `means`
      columns averaged, and the count of named players. */
  function Aggregate(group: seq<PlayerLog>, sums: seq<string>, means: seq<string>): (features: seq<Option<real>>)
    ensures |features| == |sums| + |means| + 1
  {
    Sums(group, sums) + Means(group, means) + [Some(NamedCount(group) as real)]
  }

  /** The features of a team-game, in the order of `TeamFeatureColumns`. */
  function GroupFeatures(group: seq<PlayerLog>): (features: seq<Option<real>>)
    ensures |features| == |TeamFeatureColumns|
  {
    Aggregate(group, SumColumns, MeanColumns)
  }

  /** The team-game table: rows and the names of their feature columns. */
  datatype TeamGameFeatures = TeamGameFeatures(rows: seq<TeamGame>, featureColumns: seq<string>) {
    predicate WellFormed() {
      forall i :: 0 <= i < |rows| ==> |rows[i].features| == |featureColumns|
    }
  }

  /** A column of the aggregation that is not an identifying column. */
  predicate IsFeature(column: string) {
    column !in MetadataColumns
  }

  lemma GroupColumnsAreMetadata()
    ensures forall i :: 0 <= i < |GroupColumns| ==> GroupColumns[i] in MetadataColumns
  {
  }

  lemma SumColumnsAreNotMetadata()
    ensures forall i :: 0 <= i < |SumColumns| ==> SumColumns[i] !in MetadataColumns
  {
  }

  lemma MeanColumnsAreNotMetadata()
    ensures forall i :: 0 <= i < |MeanColumns| ==> MeanColumns[i] !in MetadataColumns
  {
  }

  lemma TailColumns()
    ensures Filter(["PLAYER_COUNT", "GAME_DATE"], IsFeature) == ["PLAYER_COUNT"]
  {
    var keep := IsFeature;
    FilterKeepsAll(["PLAYER_COUNT"], keep);
    FilterDropsAll(["GAME_DATE"], keep);
    FilterAppend(["PLAYER_COUNT"], ["GAME_DATE"], keep);
    assert ["PLAYER_COUNT"] + ["GAME_DATE"] == ["PLAYER_COUNT", "GAME_DATE"];
  }

  /** The feature columns are what the aggregation produces, less the identifying columns. */
  lemma FeatureColumnsAreAggregatesLessMetadata()
    ensures Filter(AggregatedColumns, IsFeature) == TeamFeatureColumns
  {
    var tail := ["PLAYER_COUNT", "GAME_DATE"];
    GroupColumnsAreMetadata();
    SumColumnsAreNotMetadata();
    MeanColumnsAreNotMetadata();
    TailColumns();
    assert AggregatedColumns == GroupColumns + SumColumns + MeanColumns + tail;
    FilterBlocks(GroupColumns, SumColumns, MeanColumns, tail, IsFeature);
  }

  /** The team-game row of the player rows that share `key`. */
  function TeamGameOf(logs: seq<PlayerLog>, key: GroupKey): (g: TeamGame)
    requires Group(logs, key) != []
    ensures KeyOfGame(g) == key && g.features == GroupFeatures(Group(logs, key))
  {
    var group := Group(logs, key);
    TeamGame(key.gameId, group[0].gameDate, key.team, key.opponent, key.home, key.win, GroupFeatures(group))
  }

  /** The team-game rows for `keys`, in order. */
  function TeamGamesFor(logs: seq<PlayerLog>, keys: seq<GroupKey>): (rows: seq<TeamGame>)
    requires forall i :: 0 <= i < |keys| ==> Group(logs, keys[i]) != []
    ensures |rows| == |keys|
    ensures forall i :: 0 <= i < |keys| ==> rows[i] == TeamGameOf(logs, keys[i])
  {
    if keys == [] then [] else [TeamGameOf(logs, keys[0])] + TeamGamesFor(logs, keys[1..])
  }

  /** Every key of the grouping has at least one player row. */
  lemma GroupsAreNonEmpty(logs: seq<PlayerLog>)
    ensures forall i :: 0 <= i < |GroupKeys(logs)| ==> Group(logs, GroupKeys(logs)[i]) != []
  {
    var keys := GroupKeys(logs);
    forall i | 0 <= i < |keys| ensures Group(logs, keys[i]) != [] {
      assert keys[i] in keys;
      var j :| 0 <= j < |logs| && KeyOf(logs[j]) == keys[i];
      assert logs[j] in Group(logs, keys[i]);
    }
  }

  /** One row per team per game, in the grouping's order. */
  function TeamGames(logs: seq<PlayerLog>): (rows: seq<TeamGame>)
  {
    GroupsAreNonEmpty(logs);
    TeamGamesFor(logs, GroupKeys(logs))
  }

  /** Row `i` of the team-games belongs to the `i`-th key of the grouping. */
  lemma TeamGameAt(logs: seq<PlayerLog>, i: nat)
    requires i < |TeamGames(logs)|
    ensures |TeamGames(logs)| == |GroupKeys(logs)|
    ensures KeyOfGame(TeamGames(logs)[i]) == GroupKeys(logs)[i]
    ensures Group(logs, GroupKeys(logs)[i]) != []
    ensures TeamGames(logs)[i] == TeamGameOf(logs, GroupKeys(logs)[i])
  {
    GroupsAreNonEmpty(logs);
  }

  /** Each team-game row aggregates precisely the player rows that share its key; its date
      is the first of theirs. */
  lemma TeamGameAggregatesItsGroup(logs: seq<PlayerLog>, i: nat)
    requires i < |TeamGames(logs)|
    ensures var g := TeamGames(logs)[i];
      var group := Group(logs, KeyOfGame(g));
      group != [] && g.features == GroupFeatures(group) && g.gameDate == group[0].gameDate
  {
    TeamGameAt(logs, i);
    var key := GroupKeys(logs)[i];
    assert TeamGames(logs)[i] == TeamGameOf(logs, key);
    assert TeamGameOf(logs, key).gameDate == Group(logs, key)[0].gameDate;
  }

  /** Every team-game row comes from some player row. */
  lemma TeamGamesComeFromPlayerRows(logs: seq<PlayerLog>)
    ensures forall i :: 0 <= i < |TeamGames(logs)| ==>
      exists j :: 0 <= j < |logs| && KeyOf(logs[j]) == KeyOfGame(TeamGames(logs)[i])
  {
    var keys := GroupKeys(logs);
    forall i | 0 <= i < |TeamGames(logs)|
      ensures exists j :: 0 <= j < |logs| && KeyOf(logs[j]) == KeyOfGame(TeamGames(logs)[i])
    {
      TeamGameAt(logs, i);
      assert keys[i] in keys;
      var j :| 0 <= j < |logs| && KeyOf(logs[j]) == keys[i];
      assert KeyOf(logs[j]) == KeyOfGame(TeamGames(logs)[i]);
    }
  }

  /** Every player row is counted in some team-game row. */
  lemma TeamGamesCoverPlayerRows(logs: seq<PlayerLog>)
    ensures forall j :: 0 <= j < |logs| ==>
      exists i :: 0 <= i < |TeamGames(logs)| && KeyOfGame(TeamGames(logs)[i]) == KeyOf(logs[j])
  {
    var keys := GroupKeys(logs);
    forall j | 0 <= j < |logs|
      ensures exists i :: 0 <= i < |TeamGames(logs)| && KeyOfGame(TeamGames(logs)[i]) == KeyOf(logs[j])
    {
      assert KeyOf(logs[j]) in keys;
      var i :| 0 <= i < |keys| && keys[i] == KeyOf(logs[j]);
      TeamGameAt(logs, i);
    }
  }

  /** The team-game rows are in the grouping's order, one per key. */
  lemma TeamGamesOrdered(logs: seq<PlayerLog>)
    ensures forall i, j :: 0 <= i < j < |TeamGames(logs)| ==>
      KeyLe(KeyOfGame(TeamGames(logs)[i]), KeyOfGame(TeamGames(logs)[j])) &&
      KeyOfGame(TeamGames(logs)[i]) != KeyOfGame(TeamGames(logs)[j])
  {
    forall i, j | 0 <= i < j < |TeamGames(logs)|
      ensures KeyLe(KeyOfGame(TeamGames(logs)[i]), KeyOfGame(TeamGames(logs)[j])) &&
        KeyOfGame(TeamGames(logs)[i]) != KeyOfGame(TeamGames(logs)[j])
    {
      TeamGameAt(logs, i);
      TeamGameAt(logs, j);
    }
  }

  /** The team-game table: the rows of `TeamGames`, and as feature columns the aggregates less
      the identifying columns. */
  function PrepareTeamGameFeatures(logs: seq<PlayerLog>): (r: TeamGameFeatures)
    ensures r.WellFormed()
    ensures r.rows == TeamGames(logs)
    ensures r.featureColumns == TeamFeatureColumns
  {
    FeatureColumnsAreAggregatesLessMetadata();
    forall i | 0 <= i < |TeamGames(logs)| ensures |TeamGames(logs)[i].features| == |TeamFeatureColumns| {
      TeamGameAt(logs, i);
    }
    TeamGameFeatures(TeamGames(logs), Filter(AggregatedColumns, IsFeature))
  }

  lemma SumsOfOne(l: PlayerLog, columns: seq<string>)
    ensures forall j :: 0 <= j < |columns| ==> Sums([l], columns)[j] == Some(StatOf(l, columns[j]).GetOr(0.0))
  {
    forall j | 0 <= j < |columns| ensures Sums([l], columns)[j] == Some(StatOf(l, columns[j]).GetOr(0.0)) {
      var column := Column([l], columns[j]);
      assert column == [StatOf(l, columns[j])];
      assert SumPresent(column) == column[0].GetOr(0.0) + SumPresent(column[1..]);
    }
  }

  lemma MeansOfOne(l: PlayerLog, columns: seq<string>)
    ensures forall j :: 0 <= j < |columns| ==> Means([l], columns)[j] == StatOf(l, columns[j])
  {
    forall j | 0 <= j < |columns| ensures Means([l], columns)[j] == StatOf(l, columns[j]) {
      var column := Column([l], columns[j]);
      assert column == [StatOf(l, columns[j])];
      assert column[1..] == [];
      assert CountPresent(column) == (if column[0].Some? then 1 else 0);
      assert SumPresent(column) == column[0].GetOr(0.0);
    }
  }

  /** The aggregate of a single player row is that row's statistics. */
  lemma AggregateOfOne(l: PlayerLog, sums: seq<string>, means: seq<string>)
    ensures forall j :: 0 <= j < |sums| ==> Aggregate([l], sums, means)[j] == Some(StatOf(l, sums[j]).GetOr(0.0))
    ensures forall j :: 0 <= j < |means| ==> Aggregate([l], sums, means)[|sums| + j] == StatOf(l, means[j])
    ensures Aggregate([l], sums, means)[|sums| + |means|] == Some(if l.playerName.Some? then 1.0 else 0.0)
  {
    SumsOfOne(l, sums);
    MeansOfOne(l, means);
    assert [l][1..] == [];
    assert NamedCount([l]) == if l.playerName.Some? then 1 else 0;
  }

  /** A team with a single player row in a game gets that player's statistics as its own:
      missing sums read 0, missing percentages stay missing, and the player count is 1 when
      the row is named. */
  lemma SinglePlayerTeamGame(logs: seq<PlayerLog>, i: nat, l: PlayerLog)
    requires i < |PrepareTeamGameFeatures(logs).rows|
    requires Group(logs, KeyOfGame(PrepareTeamGameFeatures(logs).rows[i])) == [l]
    ensures var g := PrepareTeamGameFeatures(logs).rows[i];
      && (forall j :: 0 <= j < |SumColumns| ==> g.features[j] == Some(StatOf(l, SumColumns[j]).GetOr(0.0)))
      && (forall j :: 0 <= j < |MeanColumns| ==> g.features[|SumColumns| + j] == StatOf(l, MeanColumns[j]))
      && g.features[|SumColumns| + |MeanColumns|] == Some(if l.playerName.Some? then 1.0 else 0.0)
  {
    AggregateOfOne(l, SumColumns, MeanColumns);
  }

  /** A column lists the statistic of each row, so rearranging the rows rearranges it. */
  lemma ColumnPermutation(g1: seq<PlayerLog>, g2: seq<PlayerLog>, column: string)
    requires multiset(g1) == multiset(g2)
    ensures multiset(Column(g1, column)) == multiset(Column(g2, column))
  {
    var stat := (l: PlayerLog) => StatOf(l, column);
    assert Column(g1, column) == MapSeq(g1, stat);
    assert Column(g2, column) == MapSeq(g2, stat);
    MapPermutation(g1, g2, stat);
  }

  /** The aggregates of a group do not depend on the order of its player rows. */
  lemma AggregateOrderIndependent(g1: seq<PlayerLog>, g2: seq<PlayerLog>, sums: seq<string>, means: seq<string>)
    requires multiset(g1) == multiset(g2)
    ensures Aggregate(g1, sums, means) == Aggregate(g2, sums, means)
  {
    forall c ensures SumPresent(Column(g1, c)) == SumPresent(Column(g2, c))
      && CountPresent(Column(g1, c)) == CountPresent(Column(g2, c))
    {
      ColumnPermutation(g1, g2, c);
      SumPermutation(Column(g1, c), Column(g2, c));
    }
    assert Sums(g1, sums) == Sums(g2, sums);
    assert Means(g1, means) == Means(g2, means);
    FilterPermutation(g1, g2, IsNamed);
    assert |multiset(Filter(g1, IsNamed))| == |multiset(Filter(g2, IsNamed))|;
  }

  /** The grouping's keys do not depend on the order of the player rows. */
  lemma GroupKeysOrderIndependent(logs1: seq<PlayerLog>, logs2: seq<PlayerLog>)
    requires multiset(logs1) == multiset(logs2)
    ensures GroupKeys(logs1) == GroupKeys(logs2)
  {
    var k1, k2 := GroupKeys(logs1), GroupKeys(logs2);
    forall k ensures k in k1 <==> k in k2 {
      if k in k1 {
        var j :| 0 <= j < |logs1| && KeyOf(logs1[j]) == k;
        assert logs1[j] in multiset(logs2);
        var j2 :| 0 <= j2 < |logs2| && logs2[j2] == logs1[j];
      }
      if k in k2 {
        var j :| 0 <= j < |logs2| && KeyOf(logs2[j]) == k;
        assert logs2[j] in multiset(logs1);
        var j1 :| 0 <= j1 < |logs1| && logs1[j1] == logs2[j];
      }
    }
    KeyLeIsTotalOrder();
    SortedUnique(k1, k2, (a: GroupKey, b: GroupKey) => KeyLe(a, b));
  }

  /** Rearranging the player rows rearranges each group's rows. */
  lemma GroupPermutation(logs1: seq<PlayerLog>, logs2: seq<PlayerLog>, key: GroupKey)
    requires multiset(logs1) == multiset(logs2)
    ensures multiset(Group(logs1, key)) == multiset(Group(logs2, key))
  {
    forall l ensures multiset(Group(logs1, key))[l] == multiset(Group(logs2, key))[l] {
    }
  }

  lemma TeamGameOrderIndependentAt(logs1: seq<PlayerLog>, logs2: seq<PlayerLog>, i: nat)
    requires multiset(logs1) == multiset(logs2) && GroupKeys(logs1) == GroupKeys(logs2)
    requires i < |TeamGames(logs1)|
    ensures i < |TeamGames(logs2)|
    ensures KeyOfGame(TeamGames(logs1)[i]) == KeyOfGame(TeamGames(logs2)[i])
    ensures TeamGames(logs1)[i].features == TeamGames(logs2)[i].features
  {
    TeamGameAt(logs1, i);
    TeamGameAt(logs2, i);
    var key := GroupKeys(logs1)[i];
    GroupPermutation(logs1, logs2, key);
    AggregateOrderIndependent(Group(logs1, key), Group(logs2, key), SumColumns, MeanColumns);
  }

  /** Rearranging the player rows leaves the team-game rows' keys and features unchanged
      (only the game date, the first row's, may differ). */
  lemma TeamGamesOrderIndependent(logs1: seq<PlayerLog>, logs2: seq<PlayerLog>)
    requires multiset(logs1) == multiset(logs2)
    ensures |TeamGames(logs1)| == |TeamGames(logs2)|
    ensures forall i :: 0 <= i < |TeamGames(logs1)| ==>
      KeyOfGame(TeamGames(logs1)[i]) == KeyOfGame(TeamGames(logs2)[i]) &&
      TeamGames(logs1)[i].features == TeamGames(logs2)[i].features
  {
    GroupKeysOrderIndependent(logs1, logs2);
    GroupsAreNonEmpty(logs1);
    GroupsAreNonEmpty(logs2);
    forall i | 0 <= i < |TeamGames(logs1)|
      ensures KeyOfGame(TeamGames(logs1)[i]) == KeyOfGame(TeamGames(logs2)[i])
      ensures TeamGames(logs1)[i].features == TeamGames(logs2)[i].features
    {
      TeamGameOrderIndependentAt(logs1, logs2, i);
    }
  }

  // ----- matchup rows -----

  /** A modelling row: a team-game's identifiers, the home flag as 0/1, and for every
      feature the team's value minus the opponent's. */
  datatype MatchupRow = MatchupRow(
    gameId: string, gameDate: int, team: string, opponent: string, home: int, win: int,
    diffs: seq<Option<real>>)

  /** `r` is the opponent's row of `l`'s game: same game, team and opponent swapped. */
  predicate IsCounterpart(l: TeamGame, r: TeamGame) {
    r.gameId == l.gameId && r.team == l.opponent && r.opponent == l.team
  }

  lemma CounterpartSymmetric(l: TeamGame, r: TeamGame)
    ensures IsCounterpart(l, r) <==> IsCounterpart(r, l)
  {
  }

  /** The rows of `right` that are counterparts of `l`, in order. */
  function Counterparts(right: seq<TeamGame>, l: TeamGame): (rs: seq<TeamGame>)
    ensures forall r :: r in rs <==> r in right && IsCounterpart(l, r)
    ensures |rs| <= |right|
  {
    if right == [] then []
    else (if IsCounterpart(l, right[0]) then [right[0]] else []) + Counterparts(right[1..], l)
  }

  function PairWith(l: TeamGame, rs: seq<TeamGame>): (ps: seq<(TeamGame, TeamGame)>)
    ensures |ps| == |rs|
    ensures forall i :: 0 <= i < |rs| ==> ps[i] == (l, rs[i])
  {
    if rs == [] then [] else [(l, rs[0])] + PairWith(l, rs[1..])
  }

  /** The inner join of the team-game rows with their counterparts: for each left row in
      order, one pair per matching right row, in the right rows' order. */
  function JoinFrom(left: seq<TeamGame>, right: seq<TeamGame>): (ps: seq<(TeamGame, TeamGame)>)
    ensures forall p :: p in ps <==> p.0 in left && p.1 in right && IsCounterpart(p.0, p.1)
  {
    if left == [] then []
    else
      var here := PairWith(left[0], Counterparts(right, left[0]));
      var rest := JoinFrom(left[1..], right);
      assert forall p :: p in here <==> p.0 == left[0] && p.1 in right && IsCounterpart(p.0, p.1) by {
        forall p: (TeamGame, TeamGame) | p in here ensures p.0 == left[0] && p.1 in Counterparts(right, left[0]) {
          var i :| 0 <= i < |here| && here[i] == p;
        }
        forall p: (TeamGame, TeamGame) | p.0 == left[0] && p.1 in right && IsCounterpart(p.0, p.1) ensures p in here {
          var rs := Counterparts(right, left[0]);
          var i :| 0 <= i < |rs| && rs[i] == p.1;
          assert here[i] == p;
        }
      }
      assert left == [left[0]] + left[1..];
      here + rest
  }

  /** Feature-wise difference of two rows of features; missing if either side is. */
  function Diffs(a: seq<Option<real>>, b: seq<Option<real>>): (d: seq<Option<real>>)
    requires |a| == |b|
    ensures |d| == |a|
    ensures forall j :: 0 <= j < |a| ==> d[j] == Sub(a[j], b[j])
  {
    if a == [] then [] else [Sub(a[0], b[0])] + Diffs(a[1..], b[1..])
  }

  /** The matchup row of a team-game row and its counterpart. */
  function MatchupOf(l: TeamGame, r: TeamGame): (m: MatchupRow)
    requires |l.features| == |r.features|
  {
    MatchupRow(l.gameId, l.gameDate, l.team, l.opponent, if l.home then 1 else 0, l.win, Diffs(l.features, r.features))
  }

  predicate PairsOfWidth(ps: seq<(TeamGame, TeamGame)>, n: nat) {
    forall i :: 0 <= i < |ps| ==> |ps[i].0.features| == n && |ps[i].1.features| == n
  }

  function MatchupsOf(ps: seq<(TeamGame, TeamGame)>, n: nat): (ms: seq<MatchupRow>)
    requires PairsOfWidth(ps, n)
    ensures |ms| == |ps|
    ensures forall i :: 0 <= i < |ps| ==> ms[i] == MatchupOf(ps[i].0, ps[i].1)
  {
    if ps == [] then [] else [MatchupOf(ps[0].0, ps[0].1)] + MatchupsOf(ps[1..], n)
  }

  function Merge(tg: TeamGameFeatures): (ps: seq<(TeamGame, TeamGame)>)
    requires tg.WellFormed()
    ensures PairsOfWidth(ps, |tg.featureColumns|)
  {
    var ps := JoinFrom(tg.rows, tg.rows);
    assert forall i :: 0 <= i < |ps| ==> ps[i] in ps;
    ps
  }

  /** The modelling rows: one per (team-game row, counterpart) pair of the join. */
  function MatchupRows(tg: TeamGameFeatures): (ms: seq<MatchupRow>)
    requires tg.WellFormed()
  {
    MatchupsOf(Merge(tg), |tg.featureColumns|)
  }

  /** The name of the difference column of a feature. */
  function DiffName(column: string): string {
    column + "_DIFF"
  }

  /** Column `j` of the difference frame: feature `j` of each left row minus that of its
      counterpart. */
  function DiffColumn(ps: seq<(TeamGame, TeamGame)>, n: nat, j: nat): (column: seq<Option<real>>)
    requires PairsOfWidth(ps, n) && j < n
    ensures |column| == |ps|
    ensures forall i :: 0 <= i < |ps| ==> column[i] == Sub(ps[i].0.features[j], ps[i].1.features[j])
  {
    if ps == [] then [] else [Sub(ps[0].0.features[j], ps[0].1.features[j])] + DiffColumn(ps[1..], n, j)
  }

  /** Row `i` across a list of columns. */
  function RowOf(columns: seq<seq<Option<real>>>, i: nat): (row: seq<Option<real>>)
    requires forall k :: 0 <= k < |columns| ==> i < |columns[k]|
    ensures |row| == |columns|
    ensures forall k :: 0 <= k < |columns| ==> row[k] == columns[k][i]
  {
    if columns == [] then [] else [columns[0][i]] + RowOf(columns[1..], i)
  }

  /** One difference column per feature, and its name. */
  method DiffColumns(merged: seq<(TeamGame, TeamGame)>, features: seq<string>)
    returns (columns: seq<seq<Option<real>>>, names: seq<string>)
    requires PairsOfWidth(merged, |features|)
    ensures |columns| == |features| && |names| == |features|
    ensures forall j :: 0 <= j < |features| ==> names[j] == DiffName(features[j])
    ensures forall j :: 0 <= j < |features| ==> columns[j] == DiffColumn(merged, |features|, j)
  {
    columns, names := [], [];
    for j := 0 to |features|
      invariant |columns| == j && |names| == j
      invariant forall k :: 0 <= k < j ==> names[k] == DiffName(features[k])
      invariant forall k :: 0 <= k < j ==> columns[k] == DiffColumn(merged, |features|, k)
    {
      names := names + [DiffName(features[j])];
      columns := columns + [DiffColumn(merged, |features|, j)];
    }
  }

  /** Matchup `i` is built from pair `i`'s left row and row `i` across the difference
      columns. */
  lemma MatchupFromColumns(ps: seq<(TeamGame, TeamGame)>, n: nat, columns: seq<seq<Option<real>>>, i: nat)
    requires PairsOfWidth(ps, n) && i < |ps| && |columns| == n
    requires forall j :: 0 <= j < n ==> columns[j] == DiffColumn(ps, n, j)
    ensures forall j :: 0 <= j < n ==> |columns[j]| == |ps|
    ensures var l := ps[i].0;
      MatchupRow(l.gameId, l.gameDate, l.team, l.opponent, if l.home then 1 else 0, l.win, RowOf(columns, i))
        == MatchupsOf(ps, n)[i]
  {
    assert RowOf(columns, i) == Diffs(ps[i].0.features, ps[i].1.features);
  }

  /** Joins every team-game row with its counterpart, computes one difference column per
      feature, and keeps the identifying columns with the differences. */
  method BuildMatchupDataset(tg: TeamGameFeatures) returns (rows: seq<MatchupRow>, diffColumns: seq<string>)
    requires tg.WellFormed()
    ensures |diffColumns| == |tg.featureColumns|
    ensures forall j :: 0 <= j < |diffColumns| ==> diffColumns[j] == tg.featureColumns[j] + "_DIFF"
    ensures rows == MatchupRows(tg)
  {
    var merged := Merge(tg);
    var columns;
    columns, diffColumns := DiffColumns(merged, tg.featureColumns);
    rows := MatchupsFromColumns(merged, |tg.featureColumns|, columns);
  }

  /** Builds one matchup row per joined pair: its identifying columns from the left row and
      its differences read across the difference columns. */
  method MatchupsFromColumns(merged: seq<(TeamGame, TeamGame)>, n: nat, columns: seq<seq<Option<real>>>)
    returns (rows: seq<MatchupRow>)
    requires PairsOfWidth(merged, n) && |columns| == n
    requires forall j :: 0 <= j < n ==> columns[j] == DiffColumn(merged, n, j)
    ensures rows == MatchupsOf(merged, n)
  {
    rows := [];
    for i := 0 to |merged|
      invariant rows == MatchupsOf(merged, n)[..i]
    {
      MatchupFromColumns(merged, n, columns, i);
      var l := merged[i].0;
      rows := rows + [MatchupRow(l.gameId, l.gameDate, l.team, l.opponent, if l.home then 1 else 0, l.win, RowOf(columns, i))];
      PrefixExtend(MatchupsOf(merged, n), i);
    }
    assert MatchupsOf(merged, n)[..|merged|] == MatchupsOf(merged, n);
  }

  /** `w` is `m` seen from the other side of the same game, with every difference negated. */
  predicate IsMirror(w: MatchupRow, m: MatchupRow) {
    && w.gameId == m.gameId && w.team == m.opponent && w.opponent == m.team
    && |w.diffs| == |m.diffs| && forall k :: 0 <= k < |m.diffs| ==> w.diffs[k] == Neg(m.diffs[k])
  }

  /** Every modelling row has a mirror row: the same game seen from the other side, with
      every difference negated (missing stays missing). */
  lemma MatchupMirror(tg: TeamGameFeatures, i: nat)
    requires tg.WellFormed() && i < |MatchupRows(tg)|
    ensures exists j :: 0 <= j < |MatchupRows(tg)| && IsMirror(MatchupRows(tg)[j], MatchupRows(tg)[i])
  {
    var ps := Merge(tg);
    var n := |tg.featureColumns|;
    var p := ps[i];
    assert p in ps;
    var q := (p.1, p.0);
    assert q in ps;
    var j :| 0 <= j < |ps| && ps[j] == q;
    var m, w := MatchupRows(tg)[i], MatchupRows(tg)[j];
    assert m == MatchupOf(p.0, p.1) && w == MatchupOf(p.1, p.0);
    forall k | 0 <= k < |m.diffs| ensures w.diffs[k] == Neg(m.diffs[k]) {
      SubSwap(p.0.features[k], p.1.features[k]);
    }
  }

  /** A team-game row without a counterpart produces no modelling row. */
  lemma UnmatchedRowDropped(tg: TeamGameFeatures, l: TeamGame)
    requires tg.WellFormed() && Counterparts(tg.rows, l) == []
    ensures forall i :: 0 <= i < |Merge(tg)| ==> Merge(tg)[i].0 != l
  {
    forall i | 0 <= i < |Merge(tg)| ensures Merge(tg)[i].0 != l {
      var p := Merge(tg)[i];
      assert p in Merge(tg);
      assert p.1 in Counterparts(tg.rows, p.0);
    }
  }

  lemma {:induction false} JoinOneEach(left: seq<TeamGame>, right: seq<TeamGame>)
    requires forall i :: 0 <= i < |left| ==> |Counterparts(right, left[i])| == 1
    ensures |JoinFrom(left, right)| == |left|
    ensures forall i :: 0 <= i < |left| ==>
      JoinFrom(left, right)[i].0 == left[i] && JoinFrom(left, right)[i].1 in right &&
      IsCounterpart(left[i], JoinFrom(left, right)[i].1)
  {
    if left != [] {
      JoinOneEach(left[1..], right);
      var rs := Counterparts(right, left[0]);
      assert rs[0] in rs;
      var here := PairWith(left[0], rs);
      assert JoinFrom(left, right) == here + JoinFrom(left[1..], right);
    }
  }

  /** When every team-game row has exactly one counterpart, as in a well-formed season with
      two rows per game, there is one modelling row per team-game row, in the same order,
      carrying its identifiers, its home flag as 0/1 and its win flag, with the differences
      taken against the counterpart. */
  lemma OneMatchupPerTeamGame(tg: TeamGameFeatures)
    requires tg.WellFormed()
    requires forall i :: 0 <= i < |tg.rows| ==> |Counterparts(tg.rows, tg.rows[i])| == 1
    ensures |MatchupRows(tg)| == |tg.rows|
    ensures forall i :: 0 <= i < |tg.rows| ==>
      var g, m := tg.rows[i], MatchupRows(tg)[i];
      && m.gameId == g.gameId && m.gameDate == g.gameDate && m.team == g.team && m.opponent == g.opponent
      && (m.home == 1 <==> g.home) && (m.home == 0 <==> !g.home) && m.win == g.win
      && exists r :: r in tg.rows && IsCounterpart(g, r) && m.diffs == Diffs(g.features, r.features)
  {
    JoinOneEach(tg.rows, tg.rows);
    forall i | 0 <= i < |tg.rows|
      ensures exists r :: (r in tg.rows && IsCounterpart(tg.rows[i], r) &&
        MatchupRows(tg)[i].diffs == Diffs(tg.rows[i].features, r.features))
    {
      var r := Merge(tg)[i].1;
      assert MatchupRows(tg)[i] == MatchupOf(tg.rows[i], r);
    }
  }

  /** One game between two teams, A at home and winning: the dataset holds one row per team,
      with the differences mirrored and the home and win flags taken from each side. */
  lemma TwoTeamGameExample()
    ensures
      var a := TeamGame("G1", 20240101, "A", "B", true, 1, [Some(110.0), Some(45.0), Some(25.0)]);
      var b := TeamGame("G1", 20240101, "B", "A", false, 0, [Some(100.0), Some(40.0), Some(20.0)]);
      MatchupRows(TeamGameFeatures([a, b], ["PTS", "REB", "AST"])) ==
        [ MatchupRow("G1", 20240101, "A", "B", 1, 1, [Some(10.0), Some(5.0), Some(5.0)]),
          MatchupRow("G1", 20240101, "B", "A", 0, 0, [Some(-10.0), Some(-5.0), Some(-5.0)]) ]
  {
    var a := TeamGame("G1", 20240101, "A", "B", true, 1, [Some(110.0), Some(45.0), Some(25.0)]);
    var b := TeamGame("G1", 20240101, "B", "A", false, 0, [Some(100.0), Some(40.0), Some(20.0)]);
    assert [a, b][1..] == [b] && [b][1..] == [];
    assert Counterparts([a, b], a) == [b];
    assert Counterparts([a, b], b) == [a];
    assert JoinFrom([b], [a, b]) == [(b, a)];
    assert JoinFrom([a, b], [a, b]) == [(a, b), (b, a)];
    var tg := TeamGameFeatures([a, b], ["PTS", "REB", "AST"]);
    assert Merge(tg) == [(a, b), (b, a)];
    var ms := MatchupRows(tg);
    assert ms[0] == MatchupOf(a, b) && ms[1] == MatchupOf(b, a);
    assert Diffs(a.features, b.features) == [Some(10.0), Some(5.0), Some(5.0)];
    assert Diffs(b.features, a.features) == [Some(-10.0), Some(-5.0), Some(-5.0)];
  }

  /** A team with two rows for one game (say two different win flags) is paired twice with
      its opponent: the join multiplies rows rather than rejecting them. */
  lemma DuplicateTeamGameExample()
    ensures
      var a := TeamGame("G1", 20240101, "A", "B", true, 1, [Some(1.0)]);
      var b := TeamGame("G1", 20240101, "B", "A", false, 0, [Some(2.0)]);
      var b' := TeamGame("G1", 20240101, "B", "A", false, 1, [Some(3.0)]);
      |MatchupRows(TeamGameFeatures([a, b, b'], ["PTS"]))| == 4
  {
    var a := TeamGame("G1", 20240101, "A", "B", true, 1, [Some(1.0)]);
    var b := TeamGame("G1", 20240101, "B", "A", false, 0, [Some(2.0)]);
    var b' := TeamGame("G1", 20240101, "B", "A", false, 1, [Some(3.0)]);
    assert [a, b, b'][1..] == [b, b'] && [b, b'][1..] == [b'] && [b'][1..] == [];
    assert Counterparts([b'], b) == [] && Counterparts([b'], b') == [];
    assert Counterparts([b, b'], b) == [] && Counterparts([b, b'], b') == [];
    assert Counterparts([b'], a) == [b'] && Counterparts([b, b'], a) == [b, b'];
    assert Counterparts([a, b, b'], a) == [b, b'];
    assert Counterparts([a, b, b'], b) == [a];
    assert Counterparts([a, b, b'], b') == [a];
  }

  // ---------------------------------------------------------------------------------------
  // Season averages per team
  // ---------------------------------------------------------------------------------------

  /** One team's season averages, in the order of the feature columns. */
  datatype TeamAverage = TeamAverage(team: string, values: seq<Option<real>>)

  /** The season-average table: the feature columns and one row per team. */
  datatype SeasonAverages = SeasonAverages(columns: seq<string>, rows: seq<TeamAverage>) {
    predicate WellFormed() {
      forall i :: 0 <= i < |rows| ==> |rows[i].values| == |columns|
    }
  }

  function TeamIs(team: string): TeamGame -> bool {
    (g: TeamGame) => g.team == team
  }

  /** The team-game rows of one team, in table order. */
  function GamesOf(rows: seq<TeamGame>, team: string): (gs: seq<TeamGame>)
    ensures forall g :: g in gs <==> g in rows && g.team == team
  {
    Filter(rows, TeamIs(team))
  }

  /** Feature `j` of a team-game row (missing past the end of its features). */
  function FeatureAt(g: TeamGame, j: nat): Option<real> {
    if j < |g.features| then g.features[j] else None
  }

  /** Feature `j` over a sequence of team-game rows. */
  function FeatureColumn(gs: seq<TeamGame>, j: nat): (xs: seq<Option<real>>)
    ensures |xs| == |gs|
    ensures forall i :: 0 <= i < |gs| ==> xs[i] == FeatureAt(gs[i], j)
  {
    if gs == [] then [] else [FeatureAt(gs[0], j)] + FeatureColumn(gs[1..], j)
  }

  /** The plain means of features `0 .. n-1` over the rows `gs`. */
  function ColumnMeans(gs: seq<TeamGame>, n: nat): (vs: seq<Option<real>>)
    ensures |vs| == n
    ensures forall j :: 0 <= j < n ==> vs[j] == MeanPresent(FeatureColumn(gs, j))
  {
    if n == 0 then [] else ColumnMeans(gs, n - 1) + [MeanPresent(FeatureColumn(gs, n - 1))]
  }

  /** The weighted means of features `0 .. n-1` over the rows `gs`, weights `ws`. */
  function ColumnWeightedMeans(gs: seq<TeamGame>, ws: seq<Option<real>>, n: nat): (vs: seq<Option<real>>)
    requires |ws| == |gs|
    ensures |vs| == n
    ensures forall j :: 0 <= j < n ==> vs[j] == WeightedMean(FeatureColumn(gs, j), ws)
  {
    if n == 0 then [] else ColumnWeightedMeans(gs, ws, n - 1) + [WeightedMean(FeatureColumn(gs, n - 1), ws)]
  }

  /** The weights of the minutes-weighted mode: each row's minutes, raised to at least 1
      (a missing value stays missing). */
  function MinuteWeights(gs: seq<TeamGame>, m: nat): (ws: seq<Option<real>>)
    ensures |ws| == |gs|
    ensures forall i :: 0 <= i < |gs| ==> ws[i] == ClipBelowOne(FeatureAt(gs[i], m))
  {
    if gs == [] then [] else [ClipBelowOne(FeatureAt(gs[0], m))] + MinuteWeights(gs[1..], m)
  }

  /** The position of the first occurrence of `x` in `xs`. */
  function IndexOf(xs: seq<string>, x: string): (i: nat)
    requires x in xs
    ensures i < |xs| && xs[i] == x && x !in xs[..i]
  {
    if xs[0] == x then 0
    else
      var k := IndexOf(xs[1..], x);
      assert xs[..k + 1] == [xs[0]] + xs[1..][..k];
      k + 1
  }

  /** Minutes weighting applies only when it is requested and MIN is a feature. */
  predicate UsesMinuteWeights(columns: seq<string>, weightByMinutes: bool) {
    weightByMinutes && "MIN" in columns
  }

  /** A team's season averages over its team-game rows. */
  function TeamAverageOf(tg: TeamGameFeatures, team: string, weightByMinutes: bool): (a: TeamAverage)
    ensures a.team == team && |a.values| == |tg.featureColumns|
  {
    var gs := GamesOf(tg.rows, team);
    var n := |tg.featureColumns|;
    if UsesMinuteWeights(tg.featureColumns, weightByMinutes) then
      TeamAverage(team, ColumnWeightedMeans(gs, MinuteWeights(gs, IndexOf(tg.featureColumns, "MIN")), n))
    else
      TeamAverage(team, ColumnMeans(gs, n))
  }

  /** The team a team-game row belongs to; `MapSeq(rows, GameTeam)` lists them per row. */
  function GameTeam(g: TeamGame): string { g.team }

  /** The team a season-average row belongs to. */
  function AverageTeam(a: TeamAverage): string { a.team }

  function AveragesFor(tg: TeamGameFeatures, teams: seq<string>, weightByMinutes: bool): (as_: seq<TeamAverage>)
    ensures |as_| == |teams|
    ensures forall i :: 0 <= i < |teams| ==> as_[i] == TeamAverageOf(tg, teams[i], weightByMinutes)
  {
    if teams == [] then [] else [TeamAverageOf(tg, teams[0], weightByMinutes)] + AveragesFor(tg, teams[1..], weightByMinutes)
  }

  /** The season averages: one row per team that has a team-game row, ordered by team
      abbreviation, each holding that team's averages of every feature. */
  function TeamSeasonAverages(tg: TeamGameFeatures, weightByMinutes: bool): (sa: SeasonAverages)
    ensures sa.columns == tg.featureColumns && sa.WellFormed()
    ensures forall t :: t in MapSeq(sa.rows, AverageTeam) <==> t in MapSeq(tg.rows, GameTeam)
    ensures forall i :: 0 <= i < |sa.rows| ==> sa.rows[i] == TeamAverageOf(tg, sa.rows[i].team, weightByMinutes)
    ensures forall i, j :: 0 <= i < j < |sa.rows| ==>
      StrLe(sa.rows[i].team, sa.rows[j].team) && sa.rows[i].team != sa.rows[j].team
  {
    var teams := SortedSet(MapSeq(tg.rows, GameTeam));
    var rows := AveragesFor(tg, teams, weightByMinutes);
    assert MapSeq(rows, AverageTeam) == teams;
    forall i, j | 0 <= i < j < |rows| ensures rows[i].team != rows[j].team {
      assert teams[i] != teams[j];
    }
    SeasonAverages(tg.featureColumns, rows)
  }

  /** Row `i` of the season averages is the averages of a team that has a team-game row. */
  lemma SeasonRow(tg: TeamGameFeatures, weightByMinutes: bool, i: nat)
    requires i < |TeamSeasonAverages(tg, weightByMinutes).rows|
    ensures var t := TeamSeasonAverages(tg, weightByMinutes).rows[i].team;
      TeamSeasonAverages(tg, weightByMinutes).rows[i] == TeamAverageOf(tg, t, weightByMinutes) &&
      exists g :: g in tg.rows && g.team == t
  {
    var teams := SortedSet(MapSeq(tg.rows, GameTeam));
    assert TeamSeasonAverages(tg, weightByMinutes).rows == AveragesFor(tg, teams, weightByMinutes);
    assert teams[i] in MapSeq(tg.rows, GameTeam);
    var k :| 0 <= k < |tg.rows| && MapSeq(tg.rows, GameTeam)[k] == teams[i];
    assert tg.rows[k] in tg.rows;
  }

  /** With every one of a team's values of a feature present and within `[lo, hi]`, its
      season average of that feature lies within `[lo, hi]` too; the plain mean is then
      always present, the weighted one whenever some minutes are. */
  lemma SeasonAverageBetween(tg: TeamGameFeatures, weightByMinutes: bool, i: nat, j: nat, lo: real, hi: real)
    requires i < |TeamSeasonAverages(tg, weightByMinutes).rows| && j < |tg.featureColumns|
    requires forall g :: g in tg.rows && g.team == TeamSeasonAverages(tg, weightByMinutes).rows[i].team ==>
      FeatureAt(g, j).Some? && lo <= FeatureAt(g, j).value <= hi
    ensures var v := TeamSeasonAverages(tg, weightByMinutes).rows[i].values[j];
      (v.Some? ==> lo <= v.value <= hi) &&
      (!UsesMinuteWeights(tg.featureColumns, weightByMinutes) ==> v.Some?)
  {
    var t := TeamSeasonAverages(tg, weightByMinutes).rows[i].team;
    SeasonRow(tg, weightByMinutes, i);
    TeamAverageBetween(tg, weightByMinutes, t, j, lo, hi);
  }

  lemma TeamAverageBetween(tg: TeamGameFeatures, weightByMinutes: bool, t: string, j: nat, lo: real, hi: real)
    requires j < |tg.featureColumns|
    requires forall g :: g in tg.rows && g.team == t ==> FeatureAt(g, j).Some? && lo <= FeatureAt(g, j).value <= hi
    ensures var v := TeamAverageOf(tg, t, weightByMinutes).values[j];
      (v.Some? ==> lo <= v.value <= hi) &&
      (!UsesMinuteWeights(tg.featureColumns, weightByMinutes) && (exists g :: g in tg.rows && g.team == t) ==> v.Some?)
  {
    var gs := GamesOf(tg.rows, t);
    var xs := FeatureColumn(gs, j);
    forall k | 0 <= k < |xs| ensures xs[k].Some? && lo <= xs[k].value <= hi {
      assert gs[k] in gs;
    }
    if UsesMinuteWeights(tg.featureColumns, weightByMinutes) {
      var ws := MinuteWeights(gs, IndexOf(tg.featureColumns, "MIN"));
      WeightedMeanBetween(xs, ws, lo, hi);
    } else {
      MeanBetween(xs, lo, hi);
      if exists g :: g in tg.rows && g.team == t {
        var g :| g in tg.rows && g.team == t;
        assert g in gs;
        var m :| 0 <= m < |gs| && gs[m] == g;
        assert xs[m].Some?;
        MeanPresentWhenSomeValue(xs);
      }
    }
  }

  lemma MeanOfOne(x: Option<real>)
    ensures MeanPresent([x]) == x
  {
    assert [x][1..] == [];
    assert SumPresent([x]) == x.GetOr(0.0) && CountPresent([x]) == (if x.Some? then 1 else 0);
  }

  lemma WeightedMeanOfOne(x: Option<real>, w: real)
    requires w >= 1.0
    ensures WeightedMean([x], [Some(w)]) == Some(x.GetOr(0.0))
  {
    assert [x][1..] == [] && [Some(w)][1..] == [];
    assert SumPresent([Some(w)]) == w;
    assert WeightedSum([x], [Some(w)]) == if x.Some? then w * x.value else 0.0;
    if x.Some? {
      assert w * x.value / w == x.value;
    }
  }

  /** A team with a single game: its plain averages are that game's features; its
      minutes-weighted averages are the same features when the minutes are known, except
      that a missing feature averages to 0. */
  lemma SingleGameSeasonAverage(tg: TeamGameFeatures, weightByMinutes: bool, i: nat, g: TeamGame)
    requires i < |TeamSeasonAverages(tg, weightByMinutes).rows|
    requires GamesOf(tg.rows, TeamSeasonAverages(tg, weightByMinutes).rows[i].team) == [g]
    requires |g.features| == |tg.featureColumns|
    ensures var vs := TeamSeasonAverages(tg, weightByMinutes).rows[i].values;
      && (!UsesMinuteWeights(tg.featureColumns, weightByMinutes) ==> vs == g.features)
      && (UsesMinuteWeights(tg.featureColumns, weightByMinutes) &&
          FeatureAt(g, IndexOf(tg.featureColumns, "MIN")).Some? ==>
            forall j :: 0 <= j < |vs| ==> vs[j] == Some(g.features[j].GetOr(0.0)))
  {
    var vs := TeamSeasonAverages(tg, weightByMinutes).rows[i].values;
    forall j | 0 <= j < |g.features| ensures FeatureColumn([g], j) == [g.features[j]] { }
    if UsesMinuteWeights(tg.featureColumns, weightByMinutes) {
      var m := IndexOf(tg.featureColumns, "MIN");
      if FeatureAt(g, m).Some? {
        var w := ClipBelowOne(FeatureAt(g, m));
        assert MinuteWeights([g], m) == [w];
        forall j | 0 <= j < |vs| ensures vs[j] == Some(g.features[j].GetOr(0.0)) {
          WeightedMeanOfOne(g.features[j], w.value);
        }
      }
    } else {
      forall j | 0 <= j < |vs| ensures vs[j] == g.features[j] {
        MeanOfOne(g.features[j]);
      }
    }
  }

  /** Without a MIN feature, asking for minutes weighting gives the plain means. */
  lemma WeightingNeedsMinutes(tg: TeamGameFeatures)
    requires "MIN" !in tg.featureColumns
    ensures TeamSeasonAverages(tg, true) == TeamSeasonAverages(tg, false)
  {
    var teams := SortedSet(MapSeq(tg.rows, GameTeam));
    var a, b := AveragesFor(tg, teams, true), AveragesFor(tg, teams, false);
    assert a == b;
  }

  function FeatureOf(j: nat): TeamGame -> Option<real> {
    (g: TeamGame) => FeatureAt(g, j)
  }

  function WeightOf(m: nat): TeamGame -> Option<real> {
    (g: TeamGame) => ClipBelowOne(FeatureAt(g, m))
  }

  function WeightedFeatureOf(j: nat, m: nat): TeamGame -> Option<real> {
    (g: TeamGame) => Product(FeatureAt(g, j), ClipBelowOne(FeatureAt(g, m)))
  }

  lemma MeanOrderIndependent(gs1: seq<TeamGame>, gs2: seq<TeamGame>, j: nat)
    requires multiset(gs1) == multiset(gs2)
    ensures MeanPresent(FeatureColumn(gs1, j)) == MeanPresent(FeatureColumn(gs2, j))
  {
    assert FeatureColumn(gs1, j) == MapSeq(gs1, FeatureOf(j));
    assert FeatureColumn(gs2, j) == MapSeq(gs2, FeatureOf(j));
    MapPermutation(gs1, gs2, FeatureOf(j));
    SumPermutation(FeatureColumn(gs1, j), FeatureColumn(gs2, j));
  }

  lemma WeightedMeanOrderIndependent(gs1: seq<TeamGame>, gs2: seq<TeamGame>, j: nat, m: nat)
    requires multiset(gs1) == multiset(gs2)
    ensures WeightedMean(FeatureColumn(gs1, j), MinuteWeights(gs1, m)) ==
            WeightedMean(FeatureColumn(gs2, j), MinuteWeights(gs2, m))
  {
    var ws1, ws2 := MinuteWeights(gs1, m), MinuteWeights(gs2, m);
    assert ws1 == MapSeq(gs1, WeightOf(m)) && ws2 == MapSeq(gs2, WeightOf(m));
    MapPermutation(gs1, gs2, WeightOf(m));
    SumPermutation(ws1, ws2);
    var ps1, ps2 := Products(FeatureColumn(gs1, j), ws1), Products(FeatureColumn(gs2, j), ws2);
    assert ps1 == MapSeq(gs1, WeightedFeatureOf(j, m)) && ps2 == MapSeq(gs2, WeightedFeatureOf(j, m));
    MapPermutation(gs1, gs2, WeightedFeatureOf(j, m));
    SumPermutation(ps1, ps2);
    WeightedSumOfProducts(FeatureColumn(gs1, j), ws1);
    WeightedSumOfProducts(FeatureColumn(gs2, j), ws2);
  }

  lemma TeamAverageOrderIndependent(tg1: TeamGameFeatures, tg2: TeamGameFeatures, t: string, weightByMinutes: bool)
    requires multiset(tg1.rows) == multiset(tg2.rows) && tg1.featureColumns == tg2.featureColumns
    ensures TeamAverageOf(tg1, t, weightByMinutes) == TeamAverageOf(tg2, t, weightByMinutes)
  {
    var gs1, gs2 := GamesOf(tg1.rows, t), GamesOf(tg2.rows, t);
    FilterPermutation(tg1.rows, tg2.rows, TeamIs(t));
    var n := |tg1.featureColumns|;
    if UsesMinuteWeights(tg1.featureColumns, weightByMinutes) {
      var m := IndexOf(tg1.featureColumns, "MIN");
      forall j | 0 <= j < n
        ensures WeightedMean(FeatureColumn(gs1, j), MinuteWeights(gs1, m)) ==
                WeightedMean(FeatureColumn(gs2, j), MinuteWeights(gs2, m))
      {
        WeightedMeanOrderIndependent(gs1, gs2, j, m);
      }
      assert ColumnWeightedMeans(gs1, MinuteWeights(gs1, m), n) == ColumnWeightedMeans(gs2, MinuteWeights(gs2, m), n);
    } else {
      forall j | 0 <= j < n ensures MeanPresent(FeatureColumn(gs1, j)) == MeanPresent(FeatureColumn(gs2, j)) {
        MeanOrderIndependent(gs1, gs2, j);
      }
      assert ColumnMeans(gs1, n) == ColumnMeans(gs2, n);
    }
  }

  /** The season averages do not depend on the order of the team-game rows. */
  lemma SeasonAveragesOrderIndependent(tg1: TeamGameFeatures, tg2: TeamGameFeatures, weightByMinutes: bool)
    requires multiset(tg1.rows) == multiset(tg2.rows) && tg1.featureColumns == tg2.featureColumns
    ensures TeamSeasonAverages(tg1, weightByMinutes) == TeamSeasonAverages(tg2, weightByMinutes)
  {
    var ts1, ts2 := MapSeq(tg1.rows, GameTeam), MapSeq(tg2.rows, GameTeam);
    forall t ensures t in ts1 <==> t in ts2 {
      if t in ts1 {
        var k :| 0 <= k < |ts1| && ts1[k] == t;
        assert tg1.rows[k] in multiset(tg2.rows);
        var k2 :| 0 <= k2 < |tg2.rows| && tg2.rows[k2] == tg1.rows[k];
        assert ts2[k2] == t;
      }
      if t in ts2 {
        var k :| 0 <= k < |ts2| && ts2[k] == t;
        assert tg2.rows[k] in multiset(tg1.rows);
        var k1 :| 0 <= k1 < |tg1.rows| && tg1.rows[k1] == tg2.rows[k];
        assert ts1[k1] == t;
      }
    }
    SortedSetByMembers(ts1, ts2);
    var teams := SortedSet(ts1);
    forall i | 0 <= i < |teams|
      ensures TeamAverageOf(tg1, teams[i], weightByMinutes) == TeamAverageOf(tg2, teams[i], weightByMinutes)
    {
      TeamAverageOrderIndependent(tg1, tg2, teams[i], weightByMinutes);
    }
    assert AveragesFor(tg1, teams, weightByMinutes) == AveragesFor(tg2, teams, weightByMinutes);
  }

  // ---------------------------------------------------------------------------------------
  // The hypothetical matchup built from season averages
  // ---------------------------------------------------------------------------------------

  /** The feature a difference column is named after: the column name with every "_DIFF"
      removed. */
  function BaseFeature(column: string): string {
    RemoveAll(column, "_DIFF")
  }

  function BaseFeatures(columns: seq<string>): (bs: seq<string>)
    ensures |bs| == |columns|
    ensures forall j :: 0 <= j < |columns| ==> bs[j] == BaseFeature(columns[j])
  {
    if columns == [] then [] else [BaseFeature(columns[0])] + BaseFeatures(columns[1..])
  }

  /** Naming a feature's difference column and taking its base feature back is the identity
      for every feature name that does not itself contain "_DIFF". */
  lemma BaseOfDiffName(column: string)
    requires !Contains(column, "_DIFF")
    ensures BaseFeature(DiffName(column)) == column
  {
    FirstCharUniqueBorderFree("_DIFF");
    RemoveAllOfSuffix(column, "_DIFF");
  }

  /** The team has a row in the season averages. */
  predicate HasTeam(sa: SeasonAverages, team: string) {
    team in MapSeq(sa.rows, AverageTeam)
  }

  /** The position of `team`'s row among the season averages. */
  function TeamRow(rows: seq<TeamAverage>, team: string): (k: nat)
    requires team in MapSeq(rows, AverageTeam)
    ensures k < |rows| && rows[k].team == team
  {
    if rows[0].team == team then 0
    else
      assert MapSeq(rows[1..], AverageTeam) == MapSeq(rows, AverageTeam)[1..];
      TeamRow(rows[1..], team) + 1
  }

  /** A team's season average of `column`, as `season_averages.loc[team, column]` reads it. */
  function SeasonValue(sa: SeasonAverages, team: string, column: string): Option<real>
    requires sa.WellFormed() && HasTeam(sa, team) && column in sa.columns
  {
    sa.rows[TeamRow(sa.rows, team)].values[IndexOf(sa.columns, column)]
  }

  /** The teams of the pair that have no season averages, in argument order. */
  function MissingTeams(sa: SeasonAverages, team: string, opponent: string): (ms: seq<string>)
    ensures forall t :: t in ms <==> (t == team || t == opponent) && !HasTeam(sa, t)
  {
    (if HasTeam(sa, team) then [] else [team]) + (if HasTeam(sa, opponent) then [] else [opponent])
  }

  function SeasonDiffs(sa: SeasonAverages, team: string, opponent: string, bases: seq<string>): (ds: seq<Option<real>>)
    requires sa.WellFormed() && HasTeam(sa, team) && HasTeam(sa, opponent)
    requires forall c :: c in bases ==> c in sa.columns
    ensures |ds| == |bases|
    ensures forall j :: 0 <= j < |bases| ==>
      ds[j] == Sub(SeasonValue(sa, team, bases[j]), SeasonValue(sa, opponent, bases[j]))
  {
    if bases == [] then []
    else [Sub(SeasonValue(sa, team, bases[0]), SeasonValue(sa, opponent, bases[0]))] + SeasonDiffs(sa, team, opponent, bases[1..])
  }

  /** The single-row frame for a hypothetical game between `team` and `opponent`, built
      from their season averages; `now` stands for the current time stamped as its date.
      A team without averages is a `ValueError`; a requested feature the averages lack is
      a `KeyError`; otherwise the row carries, for every difference column, the team's
      average minus the opponent's average of its base feature. */
  function BuildSeasonMatchupFrame(sa: SeasonAverages, diffColumns: seq<string>, team: string, opponent: string,
                                   home: bool, now: int): (r: Result<MatchupRow>)
    requires sa.WellFormed()
    ensures r.Err? && r.error.ValueError? <==> !HasTeam(sa, team) || !HasTeam(sa, opponent)
    ensures r.Err? && r.error.KeyError? <==>
      HasTeam(sa, team) && HasTeam(sa, opponent) && exists j :: 0 <= j < |diffColumns| && BaseFeature(diffColumns[j]) !in sa.columns
    ensures r.Err? ==> r.error.ValueError? || r.error.KeyError?
    ensures r.Ok? ==>
      && r.value.gameId == "SEASON_AVG" && r.value.gameDate == now
      && r.value.team == team && r.value.opponent == opponent
      && (r.value.home == 1 <==> home) && (r.value.home == 0 <==> !home) && r.value.win == 0
      && |r.value.diffs| == |diffColumns|
      && forall j :: 0 <= j < |diffColumns| ==>
           BaseFeature(diffColumns[j]) in sa.columns &&
           r.value.diffs[j] == Sub(SeasonValue(sa, team, BaseFeature(diffColumns[j])),
                                   SeasonValue(sa, opponent, BaseFeature(diffColumns[j])))
  {
    var bases := BaseFeatures(diffColumns);
    var missing := MissingTeams(sa, team, opponent);
    if missing != [] then
      assert missing[0] in missing;
      Err(ValueError("Season averages missing for teams: " + Join(SortedSet(missing), ", ")))
    else
      assert team !in missing && opponent !in missing;
      var absent := MissingLabels(sa.columns, bases);
      if absent != [] then
        assert absent[0] in absent;
        var j :| 0 <= j < |bases| && bases[j] == absent[0];
        assert BaseFeature(diffColumns[j]) !in sa.columns;
        Err(KeyError(NotInIndex(absent)))
      else
        assert forall c :: c in bases ==> c in sa.columns by {
          forall c | c in bases ensures c in sa.columns {
            assert c !in absent;
          }
        }
        assert forall j :: 0 <= j < |diffColumns| ==> BaseFeature(diffColumns[j]) in sa.columns by {
          forall j | 0 <= j < |diffColumns| ensures BaseFeature(diffColumns[j]) in sa.columns {
            assert bases[j] in bases;
          }
        }
        Ok(MatchupRow("SEASON_AVG", now, team, opponent, if home then 1 else 0, 0, SeasonDiffs(sa, team, opponent, bases)))
  }

  lemma SortedSetOfOne(a: string)
    ensures SortedSet([a]) == [a]
  {
    var r := SortedSet([a]);
    assert a in r;
  }

  lemma SortedSetOfTwo(a: string, b: string)
    requires a != b && StrLe(a, b)
    ensures SortedSet([a, b]) == [a, b]
  {
    StrLeIsTotalOrder();
    Sorting.SortedUnique(SortedSet([a, b]), [a, b], (u: string, v: string) => StrLe(u, v));
  }

  /** When only `team` lacks season averages, the `ValueError` names just it. */
  lemma TeamMissingMessage(sa: SeasonAverages, diffColumns: seq<string>, team: string, opponent: string, home: bool, now: int)
    requires sa.WellFormed()
    requires !HasTeam(sa, team) && (HasTeam(sa, opponent) || opponent == team)
    ensures BuildSeasonMatchupFrame(sa, diffColumns, team, opponent, home, now) ==
      Err(ValueError("Season averages missing for teams: " + team))
  {
    var missing := MissingTeams(sa, team, opponent);
    SortedSetByMembers(missing, [team]);
    SortedSetOfOne(team);
  }

  /** When only `opponent` lacks season averages, the `ValueError` names just it. */
  lemma OpponentMissingMessage(sa: SeasonAverages, diffColumns: seq<string>, team: string, opponent: string, home: bool, now: int)
    requires sa.WellFormed()
    requires HasTeam(sa, team) && !HasTeam(sa, opponent)
    ensures BuildSeasonMatchupFrame(sa, diffColumns, team, opponent, home, now) ==
      Err(ValueError("Season averages missing for teams: " + opponent))
  {
    SortedSetOfOne(opponent);
  }

  /** When two different teams both lack season averages, the `ValueError` names both,
      sorted and separated by ", ". */
  lemma BothMissingMessage(sa: SeasonAverages, diffColumns: seq<string>, team: string, opponent: string, home: bool, now: int)
    requires sa.WellFormed()
    requires !HasTeam(sa, team) && !HasTeam(sa, opponent) && team != opponent
    ensures BuildSeasonMatchupFrame(sa, diffColumns, team, opponent, home, now) ==
      Err(ValueError("Season averages missing for teams: " +
        (if StrLe(team, opponent) then team + ", " + opponent else opponent + ", " + team)))
  {
    var missing := MissingTeams(sa, team, opponent);
    assert missing == [team, opponent];
    if StrLe(team, opponent) {
      SortedSetOfTwo(team, opponent);
      assert SortedSet(missing) == [team, opponent];
      assert [team, opponent][1..] == [opponent];
      assert Join(SortedSet(missing), ", ") == team + ", " + opponent;
    } else {
      StrLeTotal(team, opponent);
      SortedSetByMembers(missing, [opponent, team]);
      SortedSetOfTwo(opponent, team);
    }
  }

  /** Swapping the two teams negates every difference of the season matchup. */
  lemma SeasonMatchupAntisymmetric(sa: SeasonAverages, diffColumns: seq<string>, team: string, opponent: string,
                                   home: bool, home': bool, now: int)
    requires sa.WellFormed()
    ensures var r := BuildSeasonMatchupFrame(sa, diffColumns, team, opponent, home, now);
      var s := BuildSeasonMatchupFrame(sa, diffColumns, opponent, team, home', now);
      r.Ok? <==> s.Ok?
    ensures var r := BuildSeasonMatchupFrame(sa, diffColumns, team, opponent, home, now);
      var s := BuildSeasonMatchupFrame(sa, diffColumns, opponent, team, home', now);
      r.Ok? && s.Ok? ==> forall j :: 0 <= j < |diffColumns| ==> s.value.diffs[j] == Neg(r.value.diffs[j])
  {
    var r := BuildSeasonMatchupFrame(sa, diffColumns, team, opponent, home, now);
    var s := BuildSeasonMatchupFrame(sa, diffColumns, opponent, team, home', now);
    if r.Ok? && s.Ok? {
      forall j | 0 <= j < |diffColumns| ensures s.value.diffs[j] == Neg(r.value.diffs[j]) {
        var c := BaseFeature(diffColumns[j]);
        SubSwap(SeasonValue(sa, team, c), SeasonValue(sa, opponent, c));
      }
    }
  }

  /** `season_averages.loc[team, feature]` on the pipeline's averages is that team's
      average of the feature. */
  lemma SeasonValueOfPipeline(tg: TeamGameFeatures, weightByMinutes: bool, team: string, j: nat)
    requires NoDuplicates(tg.featureColumns) && j < |tg.featureColumns|
    requires HasTeam(TeamSeasonAverages(tg, weightByMinutes), team)
    ensures SeasonValue(TeamSeasonAverages(tg, weightByMinutes), team, tg.featureColumns[j]) ==
            TeamAverageOf(tg, team, weightByMinutes).values[j]
  {
    var sa := TeamSeasonAverages(tg, weightByMinutes);
    var k := TeamRow(sa.rows, team);
    SeasonRow(tg, weightByMinutes, k);
    var m := IndexOf(tg.featureColumns, tg.featureColumns[j]);
    assert m == j;
  }

  /** End to end: for two teams that played, the season averages of the pipeline and the
      difference names of the matchup dataset give a season matchup whose every difference
      is the team's season average minus the opponent's. */
  lemma SeasonMatchupOfPipeline(tg: TeamGameFeatures, weightByMinutes: bool, diffColumns: seq<string>,
                                team: string, opponent: string, home: bool, now: int)
    requires NoDuplicates(tg.featureColumns)
    requires forall j :: 0 <= j < |tg.featureColumns| ==> !Contains(tg.featureColumns[j], "_DIFF")
    requires |diffColumns| == |tg.featureColumns|
    requires forall j :: 0 <= j < |diffColumns| ==> diffColumns[j] == DiffName(tg.featureColumns[j])
    requires team in MapSeq(tg.rows, GameTeam) && opponent in MapSeq(tg.rows, GameTeam)
    ensures var r := BuildSeasonMatchupFrame(TeamSeasonAverages(tg, weightByMinutes), diffColumns, team, opponent, home, now);
      && r.Ok?
      && forall j :: 0 <= j < |diffColumns| ==>
           r.value.diffs[j] == Sub(TeamAverageOf(tg, team, weightByMinutes).values[j],
                                   TeamAverageOf(tg, opponent, weightByMinutes).values[j])
  {
    var sa := TeamSeasonAverages(tg, weightByMinutes);
    forall j | 0 <= j < |diffColumns| ensures BaseFeature(diffColumns[j]) == tg.featureColumns[j] {
      BaseOfDiffName(tg.featureColumns[j]);
    }
    var r := BuildSeasonMatchupFrame(sa, diffColumns, team, opponent, home, now);
    forall j | 0 <= j < |diffColumns|
      ensures r.value.diffs[j] == Sub(TeamAverageOf(tg, team, weightByMinutes).values[j],
                                      TeamAverageOf(tg, opponent, weightByMinutes).values[j])
    {
      SeasonValueOfPipeline(tg, weightByMinutes, team, j);
      SeasonValueOfPipeline(tg, weightByMinutes, opponent, j);
    }
  }
}
