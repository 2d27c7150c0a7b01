/** `chronological_split` in `nba_predictor/main.py`: the matchup rows sorted by game date
    and cut into a training part and a test part, the test part holding the latest rows. */
module Split {
  import opened Common
  import opened Sorting
  import opened Data

  function DateLe(): (MatchupRow, MatchupRow) -> bool {
    (a: MatchupRow, b: MatchupRow) => a.gameDate <= b.gameDate
  }

  /** `sort_values("GAME_DATE")`: the rows in ascending date order. pandas' default sort is
      not stable, so rows of equal date may come in any order; only "sorted and a
      permutation" is promised. */
  function ByDate(rows: seq<MatchupRow>): (sorted: seq<MatchupRow>)
    ensures multiset(sorted) == multiset(rows) && |sorted| == |rows|
    ensures forall i, j :: 0 <= i < j < |sorted| ==> sorted[i].gameDate <= sorted[j].gameDate
  {
    SortBySorted(rows, DateLe());
    SortBy(rows, DateLe())
  }

  /** `int(len(df) * (1 - test_size))`: truncation toward zero. */
  function SplitIndex(n: nat, testSize: real): int {
    Trunc(n as real * (1.0 - testSize))
  }

  datatype Split = Split(train: seq<MatchupRow>, test: seq<MatchupRow>)

  /** The training rows are `sorted.iloc[:k]` and the test rows `sorted.iloc[k:]` for the
      split index `k`, a negative `k` counting from the end as Python slices do. */
  function ChronologicalSplit(rows: seq<MatchupRow>, testSize: real): (s: Split)
    ensures |s.train| == SliceEnd(SplitIndex(|rows|, testSize), |rows|)
    ensures |s.train| + |s.test| == |rows|
    ensures forall i, j :: 0 <= i < j < |s.train| ==> s.train[i].gameDate <= s.train[j].gameDate
    ensures forall i, j :: 0 <= i < j < |s.test| ==> s.test[i].gameDate <= s.test[j].gameDate
  {
    var sorted := ByDate(rows);
    var k := SliceEnd(SplitIndex(|rows|, testSize), |rows|);
    Split(sorted[..k], sorted[k..])
  }

  /** Together the two parts are the rows in date order: nothing is lost or duplicated. */
  lemma SplitIsPermutation(rows: seq<MatchupRow>, testSize: real)
    ensures var s := ChronologicalSplit(rows, testSize);
      multiset(s.train) + multiset(s.test) == multiset(rows)
  {
    var sorted := ByDate(rows);
    var k := SliceEnd(SplitIndex(|rows|, testSize), |rows|);
    assert sorted == sorted[..k] + sorted[k..];
  }

  /** No training game is later than any test game. */
  lemma TrainBeforeTest(rows: seq<MatchupRow>, testSize: real)
    ensures var s := ChronologicalSplit(rows, testSize);
      forall i, j :: 0 <= i < |s.train| && 0 <= j < |s.test| ==> s.train[i].gameDate <= s.test[j].gameDate
  {
    var sorted := ByDate(rows);
    var k := SliceEnd(SplitIndex(|rows|, testSize), |rows|);
    var s := ChronologicalSplit(rows, testSize);
    forall i, j | 0 <= i < |s.train| && 0 <= j < |s.test|
      ensures s.train[i].gameDate <= s.test[j].gameDate
    {
      assert s.train[i] == sorted[i] && s.test[j] == sorted[k + j];
    }
  }

  /** For a test fraction between 0 and 1 the training part holds the floor of
      `n * (1 - test_size)` rows and the test part the rest. */
  lemma SplitSizes(rows: seq<MatchupRow>, testSize: real)
    requires 0.0 <= testSize <= 1.0
    ensures var s := ChronologicalSplit(rows, testSize);
      |s.train| == (|rows| as real * (1.0 - testSize)).Floor &&
      |s.test| == |rows| - (|rows| as real * (1.0 - testSize)).Floor
  {
    var x := |rows| as real * (1.0 - testSize);
    assert 0.0 <= x <= |rows| as real by {
      assert 0.0 <= 1.0 - testSize <= 1.0;
    }
  }

  /** A test fraction of 0 trains on every row; a fraction of 1 tests on every row. */
  lemma SplitExtremes(rows: seq<MatchupRow>)
    ensures ChronologicalSplit(rows, 0.0).test == []
    ensures ChronologicalSplit(rows, 0.0).train == ByDate(rows)
    ensures ChronologicalSplit(rows, 1.0).train == []
    ensures ChronologicalSplit(rows, 1.0).test == ByDate(rows)
  {
    assert SplitIndex(|rows|, 0.0) == |rows|;
    assert SplitIndex(|rows|, 1.0) == 0;
  }

  /** A test fraction above 1 makes the split index negative, which Python reads from the
      end: with 4 rows and `test_size` 1.5 the index is -2, so the first two rows train. */
  lemma NegativeSplitIndex(rows: seq<MatchupRow>)
    requires |rows| == 4
    ensures |ChronologicalSplit(rows, 1.5).train| == 2
  {
    assert SplitIndex(4, 1.5) == -2;
  }
}
