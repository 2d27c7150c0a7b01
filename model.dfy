/** `nba_predictor/model.py`: the matchup predictor. It remembers the feature columns it
    was fitted on, standardises those columns with a fitted scaler and feeds them to a
    fitted logistic classifier. The scaler's transform and the classifier's probability
    and coefficients are what scikit-learn learns; the model keeps them abstract and
    records only what the wrapper does with them. */
module Model {
  import opened Common
  import opened Text
  import opened Sorting
  import opened Stats
  import opened Table

  /** A StandardScaler that `fit` has been called on. Either it is fitted, with the feature
      names it was fitted on and the transform it learned for one row, or a refit discarded
      what it had learned and then failed its input validation. Validation records the new
      feature names (none for an empty column list) before it fails, while the feature count
      of the last successful fit, if there was one, survives. */
  datatype Scaler =
    | Scaler(columns: seq<string>, standardize: seq<real> -> seq<real>)
    | ResetScaler(names: Option<seq<string>>, width: Option<nat>)
  {
    /** Standardising keeps one value per feature. */
    ghost predicate Consistent() {
      Scaler? ==> forall x :: |standardize(x)| == |x|
    }
  }

  /** The feature count a scaler state remembers from its last successful fit. */
  function FittedWidth(scaler: Option<Scaler>): (w: Option<nat>)
    ensures scaler.Some? && scaler.value.Scaler? ==> w == Some(|scaler.value.columns|)
    ensures scaler.None? ==> w.None?
  {
    match scaler
    case None => None
    case Some(Scaler(columns, _)) => Some(|columns|)
    case Some(ResetScaler(_, width)) => width
  }

  /** The scaler after a refit on `columns` that failed its input validation. */
  function Refit(scaler: Option<Scaler>, columns: seq<string>): Scaler {
    ResetScaler(if columns == [] then None else Some(columns), FittedWidth(scaler))
  }

  /** What a successful LogisticRegression fit learned: its coefficients and its
      probability of a win for one standardised row. */
  datatype Learned = Learned(coef: seq<real>, proba: seq<real> -> real)

  /** A classifier that `fit` has been called on. Either it is fitted: how many inputs it
      was fitted on, its coefficients when it exposes them, and its probability of a win
      for one standardised row. Or its last fit stopped at the two-class check: input
      validation had already recorded the new input count, while what an earlier successful
      fit learned, if there was one, survives. */
  datatype Classifier =
    | Classifier(width: nat, coef: Option<seq<real>>, proba: seq<real> -> real)
    | FailedRefit(width: nat, kept: Option<Learned>)
  {
    predicate Consistent() {
      Classifier? && coef.Some? ==> |coef.value| == width
    }

    /** The coefficients the estimator exposes as `coef_`, if it has any. */
    function Coefficients(): (r: Option<seq<real>>)
      ensures Classifier? ==> r == coef
      ensures FailedRefit? ==> (r.Some? <==> kept.Some?)
    {
      match this
      case Classifier(_, coef, _) => coef
      case FailedRefit(_, kept) => if kept.Some? then Some(kept.value.coef) else None
    }

    /** The probability function a prediction reaches once the input count matches: none
        when `coef_` is missing or has a different width from the recorded input count. */
    function Scorer(): (r: Option<seq<real> -> real>)
      ensures Classifier? ==> r == Some(proba)
      ensures FailedRefit? ==> (r.Some? <==> kept.Some? && |kept.value.coef| == width)
    {
      match this
      case Classifier(_, _, proba) => Some(proba)
      case FailedRefit(width, kept) =>
        if kept.Some? && |kept.value.coef| == width then Some(kept.value.proba) else None
    }
  }

  /** The classifier after a fit on `width` inputs that stopped at the two-class check. */
  function RefitClassifier(classifier: Option<Classifier>, width: nat): Classifier {
    FailedRefit(width,
      match classifier
      case Some(Classifier(_, Some(coef), proba)) => Some(Learned(coef, proba))
      case Some(FailedRefit(_, kept)) => kept
      case _ => None)
  }

  const FeaturesNotSet := "Feature columns have not been set. Call `fit` first."
  const NotFittedForExplain := "Predictor must be fitted before explanations are available."
  const NoCoefficients := "The underlying model does not expose coefficients."

  /** scikit-learn's error for an estimator used before it was fitted. */
  function NotFitted(estimator: string): Error {
    NotFittedError("This " + estimator + " instance is not fitted yet. Call 'fit' with appropriate arguments before using this estimator.")
  }

  /** scikit-learn's input validation: text in a feature column cannot become a float. */
  const NotANumber := ValueError("could not convert string to float")
  /** scikit-learn's input validation: an empty feature matrix. */
  const NoSamples := ValueError("Found array with 0 sample(s) while a minimum of 1 is required.")
  /** scikit-learn's input validation: a feature matrix without columns. */
  const NoFeatures := ValueError("Found array with 0 feature(s) while a minimum of 1 is required by StandardScaler.")
  /** scikit-learn's input validation: names differ from those seen when fitting. */
  const NamesDiffer := ValueError("The feature names should match those that were passed during fit.")
  /** The transform of a reset scaler: the statistics it subtracts are gone. */
  const NoMean := AttributeError("'StandardScaler' object has no attribute 'mean_'")
  /** The decision function of a classifier whose fits never learned coefficients. */
  const NoCoef := AttributeError("'LogisticRegression' object has no attribute 'coef_'")
  /** numpy's product of the rows with coefficients of another width. */
  const CoefShapeDiffers := ValueError("matmul: Input operand 1 has a mismatch in its core dimension 0")

  /** scikit-learn's input validation: a feature count other than the one seen when fitting. */
  function WidthDiffers(n: nat, expected: nat): Error {
    ValueError("X has " + NatToString(n) + " features, but StandardScaler is expecting " +
      NatToString(expected) + " features as input.")
  }
  /** pandas' `astype(int)` of a missing value. */
  const MissingTarget := ValueError("Cannot convert non-finite values (NA or inf) to integer")
  /** pandas' `astype(int)` of text. */
  const TextTarget := ValueError("invalid literal for int()")

  /** A cell as `fillna(0.0)` followed by the conversion to floats reads it. */
  function FeatureValue(c: Cell): Option<real> {
    match c
    case Num(x) => Some(x)
    case NA => Some(0.0)
    case NonNumeric => None
  }

  /** The selected cells of one row as numbers, or nothing if one of them is not a number. */
  function SelectRow(row: map<string, Cell>, columns: seq<string>): (xs: Option<seq<real>>)
    requires forall j :: 0 <= j < |columns| ==> columns[j] in row
    ensures xs.Some? <==> forall j :: 0 <= j < |columns| ==> FeatureValue(row[columns[j]]).Some?
    ensures xs.Some? ==> |xs.value| == |columns|
    ensures xs.Some? ==> forall j :: 0 <= j < |columns| ==> FeatureValue(row[columns[j]]) == Some(xs.value[j])
  {
    if columns == [] then Some([])
    else
      match (FeatureValue(row[columns[0]]), SelectRow(row, columns[1..]))
      case (Some(x), Some(rest)) => Some([x] + rest)
      case _ => None
  }

  /** `dataframe.loc[:, columns].fillna(0.0)` as a matrix of numbers, one row per frame row,
      or nothing if one selected cell is not a number. */
  function Select(rows: seq<map<string, Cell>>, columns: seq<string>): (m: Option<seq<seq<real>>>)
    requires forall i, j :: 0 <= i < |rows| && 0 <= j < |columns| ==> columns[j] in rows[i]
    ensures m.Some? <==> forall i :: 0 <= i < |rows| ==> SelectRow(rows[i], columns).Some?
    ensures m.Some? ==> |m.value| == |rows|
    ensures m.Some? ==> forall i :: 0 <= i < |rows| ==> Some(m.value[i]) == SelectRow(rows[i], columns)
  {
    if rows == [] then Some([])
    else
      match (SelectRow(rows[0], columns), Select(rows[1..], columns))
      case (Some(x), Some(rest)) => Some([x] + rest)
      case _ => None
  }

  /** The columns a frame lacks, in the order asked for. */
  function Absent(df: Frame, columns: seq<string>): (ms: seq<string>)
    ensures forall c :: c in ms <==> c in columns && c !in df.columns
  {
    Filter(columns, (c: string) => c !in df.columns)
  }

  /** A WIN cell cast to `int`. */
  function TargetOf(c: Cell): Result<int> {
    match c
    case Num(x) => Ok(Trunc(x))
    case NA => Err(MissingTarget)
    case NonNumeric => Err(TextTarget)
  }

  /** `dataframe["WIN"].astype(int)`: the first row that cannot be cast stops it. */
  function TargetsOf(rows: seq<map<string, Cell>>): (r: Result<seq<int>>)
    requires forall i :: 0 <= i < |rows| ==> "WIN" in rows[i]
    ensures r.Ok? <==> forall i :: 0 <= i < |rows| ==> TargetOf(rows[i]["WIN"]).Ok?
    ensures r.Ok? ==> |r.value| == |rows|
    ensures r.Ok? ==> forall i :: 0 <= i < |rows| ==> TargetOf(rows[i]["WIN"]) == Ok(r.value[i])
    ensures r.Err? ==> exists i :: 0 <= i < |rows| && TargetOf(rows[i]["WIN"]) == Err(r.error)
    ensures r.Err? ==> r.error.ValueError?
  {
    if rows == [] then Ok([])
    else
      match TargetOf(rows[0]["WIN"])
      case Err(e) => Err(e)
      case Ok(y) =>
        match TargetsOf(rows[1..])
        case Err(e) =>
          assert exists i :: 1 <= i < |rows| && TargetOf(rows[i]["WIN"]) == Err(e) by {
            var i :| 0 <= i < |rows[1..]| && TargetOf(rows[1..][i]["WIN"]) == Err(e);
            assert rows[i + 1] == rows[1..][i];
          }
          Err(e)
        case Ok(ys) => Ok([y] + ys)
  }

  function Targets(df: Frame): (r: Result<seq<int>>)
    requires df.WellFormed()
    ensures "WIN" !in df.columns ==> r == Err(KeyError("WIN"))
    ensures "WIN" in df.columns ==> r == TargetsOf(df.rows)
    ensures r.Err? && r.error.KeyError? <==> "WIN" !in df.columns
  {
    if "WIN" !in df.columns then Err(KeyError("WIN")) else TargetsOf(df.rows)
  }

  /** The number of distinct values among the targets. */
  function ClassCount(ys: seq<int>): (n: nat)
    ensures n == |set y | y in ys|
  {
    |set y | y in ys|
  }

  /** The label the predictor gives a probability at a threshold: 1 from the threshold up. */
  function Label(p: real, threshold: real): (y: int)
    ensures y == 1 <==> p >= threshold
    ensures y == 0 <==> p < threshold
  {
    if p >= threshold then 1 else 0
  }

  function Labels(ps: seq<real>, threshold: real): (ys: seq<int>)
    ensures |ys| == |ps|
    ensures forall i :: 0 <= i < |ps| ==> ys[i] == Label(ps[i], threshold)
  {
    if ps == [] then [] else [Label(ps[0], threshold)] + Labels(ps[1..], threshold)
  }

  /** The number of positions where the two label sequences agree. */
  function Matches(ys: seq<int>, zs: seq<int>): (n: nat)
    requires |ys| == |zs|
    ensures n <= |ys|
    ensures n == |ys| <==> ys == zs
  {
    if ys == [] then 0
    else
      assert ys == [ys[0]] + ys[1..] && zs == [zs[0]] + zs[1..];
      (if ys[0] == zs[0] then 1 else 0) + Matches(ys[1..], zs[1..])
  }

  /** scikit-learn's `accuracy_score`: the fraction of rows whose label is right. */
  function Accuracy(truth: seq<int>, predicted: seq<int>): (a: real)
    requires |truth| == |predicted| && |truth| > 0
    ensures 0.0 <= a <= 1.0
    ensures a == 1.0 <==> truth == predicted
  {
    var m, n := Matches(truth, predicted) as real, |truth| as real;
    QuotientBetween(m, n, 0.0, 1.0);
    assert m / n == 1.0 ==> m == n by {
      if m / n == 1.0 { assert m == m / n * n; }
    }
    m / n
  }

  /** The standardised feature matrix of a frame, for a predictor with these feature
      columns and scaler. No feature columns (unset or empty) is a `ValueError`; feature
      columns the frame lacks are a `KeyError`; then the scaler must be fitted on the same
      names, the cells numeric and the frame non-empty. A reset scaler passes the fitted test
      once it holds feature names or a feature count, runs the same validation and then
      fails for want of its statistics. */
  function Prepared(columns: Option<seq<string>>, scaler: Option<Scaler>, df: Frame): (r: Result<seq<seq<real>>>)
    requires df.WellFormed()
    ensures columns.None? || columns == Some([]) ==> r == Err(ValueError(FeaturesNotSet))
    ensures r.Ok? ==> columns.Some? && scaler.Some? && scaler.value.Scaler? && scaler.value.columns == columns.value
    ensures r.Ok? ==> Absent(df, columns.value) == [] && Select(df.rows, columns.value).Some?
    ensures r.Ok? ==> |r.value| == |df.rows| > 0
    ensures r.Ok? ==> forall i :: 0 <= i < |df.rows| ==>
      r.value[i] == scaler.value.standardize(SelectRow(df.rows[i], columns.value).value)
  {
    if columns.None? || columns.value == [] then Err(ValueError(FeaturesNotSet))
    else
      var missing := Absent(df, columns.value);
      if missing != [] then
        Err(KeyError("Missing required feature columns: " + Join(SortedSet(missing), ", ")))
      else if scaler.None? || (scaler.value.ResetScaler? && scaler.value.names.None? && scaler.value.width.None?) then Err(NotFitted("StandardScaler"))
      else if scaler.value.Scaler? && scaler.value.columns != columns.value then Err(NamesDiffer)
      else if scaler.value.ResetScaler? && scaler.value.names.Some? && scaler.value.names.value != columns.value then
        Err(NamesDiffer)
      else
        match Select(df.rows, columns.value)
        case None => Err(NotANumber)
        case Some(m) =>
          if |m| == 0 then Err(NoSamples)
          else if scaler.value.ResetScaler? then
            if scaler.value.width.Some? && scaler.value.width.value != |columns.value| then
              Err(WidthDiffers(|columns.value|, scaler.value.width.value))
            else Err(NoMean)
          else
            assert forall i :: 0 <= i < |df.rows| ==> Some(m[i]) == SelectRow(df.rows[i], columns.value);
            Ok(MapSeq(m, scaler.value.standardize))
  }

  /** A feature column the frame lacks is a `KeyError` naming every missing column, sorted
      and separated by ", "; a frame with all of them passes this check. */
  lemma PreparedMissingColumns(columns: seq<string>, scaler: Option<Scaler>, df: Frame)
    requires df.WellFormed() && columns != []
    ensures var r := Prepared(Some(columns), scaler, df);
      (r.Err? && r.error.KeyError? <==> Absent(df, columns) != []) &&
      (Absent(df, columns) != [] ==>
        r.error.message == "Missing required feature columns: " + Join(SortedSet(Absent(df, columns)), ", "))
  {
  }

  /** Preparing succeeds exactly for a fitted scaler with the same feature names, a frame
      with every feature column, numeric cells and at least one row. */
  lemma PreparedSucceeds(columns: seq<string>, scaler: Option<Scaler>, df: Frame)
    requires df.WellFormed() && columns != []
    ensures Prepared(Some(columns), scaler, df).Ok? <==>
      && Absent(df, columns) == [] && scaler.Some? && scaler.value.Scaler? && scaler.value.columns == columns
      && Select(df.rows, columns).Some? && |df.rows| > 0
  {
  }

  /** The win probability of every row, in row order: the classifier must be fitted and
      take as many inputs as there are standardised features. */
  function Probabilities(columns: Option<seq<string>>, scaler: Option<Scaler>, classifier: Option<Classifier>, df: Frame): (r: Result<seq<real>>)
    requires df.WellFormed()
    ensures Prepared(columns, scaler, df).Err? ==> r == Err(Prepared(columns, scaler, df).error)
    ensures Prepared(columns, scaler, df).Ok? && classifier.None? ==> r == Err(NotFitted("LogisticRegression"))
    ensures r.Ok? ==>
      && Prepared(columns, scaler, df).Ok? && classifier.Some? && classifier.value.Scorer().Some?
      && |r.value| == |df.rows| == |Prepared(columns, scaler, df).value|
      && var x := Prepared(columns, scaler, df).value;
         forall i :: 0 <= i < |x| ==> |x[i]| == classifier.value.width && r.value[i] == classifier.value.Scorer().value(x[i])
  {
    var p := Prepared(columns, scaler, df);
    if p.Err? then Err(p.error)
    else if classifier.None? then Err(NotFitted("LogisticRegression"))
    else Scores(classifier.value, p.value)
  }

  /** The classifier's probabilities for standardised rows: the rows must have the input
      count it recorded, and it must hold coefficients of that width. */
  function Scores(c: Classifier, x: seq<seq<real>>): (r: Result<seq<real>>)
    ensures r.Ok? ==> c.Scorer().Some? && |r.value| == |x|
    ensures r.Ok? ==> forall i :: 0 <= i < |x| ==> |x[i]| == c.width && r.value[i] == c.Scorer().value(x[i])
    ensures c.Scorer().None? ==> r.Err?
    ensures c.FailedRefit? && c.kept.None? && (forall i :: 0 <= i < |x| ==> |x[i]| == c.width) ==> r == Err(NoCoef)
  {
    if exists i :: 0 <= i < |x| && |x[i]| != c.width then
      Err(ValueError("X has a different number of features than the classifier is expecting."))
    else if c.Coefficients().None? && c.FailedRefit? then Err(NoCoef)
    else if c.Scorer().None? then Err(CoefShapeDiffers)
    else Ok(MapSeq(x, c.Scorer().value))
  }

  /** After a successful fit, the frame it was fitted on prepares into one standardised row
      per frame row, each as wide as the feature list. */
  lemma PreparedAfterFit(df: Frame, columns: seq<string>, standardize: seq<real> -> seq<real>)
    requires df.WellFormed() && FitOutcome(df, columns).Pass?
    requires forall x :: |standardize(x)| == |x|
    ensures var p := Prepared(Some(columns), Some(Scaler(columns, standardize)), df);
      p.Ok? && |p.value| == |df.rows| &&
      forall k :: 0 <= k < |p.value| ==>
        |p.value[k]| == |columns| && p.value[k] == standardize(SelectRow(df.rows[k], columns).value)
  {
    var sc := Some(Scaler(columns, standardize));
    PreparedSucceeds(columns, sc, df);
    var x := Prepared(Some(columns), sc, df).value;
    forall k | 0 <= k < |x| ensures |x[k]| == |columns| {
      assert |standardize(SelectRow(df.rows[k], columns).value)| == |SelectRow(df.rows[k], columns).value|;
    }
  }

  /** What a successful fit leaves behind predicts on the frame it was fitted on: one
      probability per row, the classifier's for the row's standardised features. */
  lemma FitThenPredict(df: Frame, columns: seq<string>, standardize: seq<real> -> seq<real>, coef: seq<real>,
                       proba: seq<real> -> real, i: nat)
    requires df.WellFormed() && FitOutcome(df, columns).Pass?
    requires forall x :: |standardize(x)| == |x|
    requires i < |df.rows|
    ensures var r := Probabilities(Some(columns), Some(Scaler(columns, standardize)),
                                   Some(Classifier(|columns|, Some(coef), proba)), df);
      r.Ok? && |r.value| == |df.rows| &&
      r.value[i] == proba(standardize(SelectRow(df.rows[i], columns).value))
  {
    PreparedAfterFit(df, columns, standardize);
    var x := Prepared(Some(columns), Some(Scaler(columns, standardize)), df).value;
    var r := Probabilities(Some(columns), Some(Scaler(columns, standardize)), Some(Classifier(|columns|, Some(coef), proba)), df);
    assert r == Ok(MapSeq(x, proba));
  }

  /** One label per row, in row order: 1 exactly when the row's probability reaches the
      threshold. */
  function Predictions(columns: Option<seq<string>>, scaler: Option<Scaler>, classifier: Option<Classifier>, df: Frame,
                       threshold: real): (r: Result<seq<int>>)
    requires df.WellFormed()
    ensures r.Ok? <==> Probabilities(columns, scaler, classifier, df).Ok?
    ensures r.Err? ==> r.error == Probabilities(columns, scaler, classifier, df).error
    ensures r.Ok? ==> |r.value| == |df.rows|
    ensures r.Ok? ==> forall i :: 0 <= i < |df.rows| ==>
      (r.value[i] == 1 <==> Probabilities(columns, scaler, classifier, df).value[i] >= threshold) &&
      (r.value[i] == 0 || r.value[i] == 1)
  {
    var ps :- Probabilities(columns, scaler, classifier, df);
    Ok(Labels(ps, threshold))
  }

  /** Raising the threshold never turns a predicted loss into a predicted win. */
  lemma PredictionsMonotone(columns: Option<seq<string>>, scaler: Option<Scaler>, classifier: Option<Classifier>, df: Frame,
                            low: real, high: real, i: nat)
    requires df.WellFormed() && low <= high
    requires Predictions(columns, scaler, classifier, df, low).Ok? && i < |df.rows|
    ensures Predictions(columns, scaler, classifier, df, high).value[i] <= Predictions(columns, scaler, classifier, df, low).value[i]
  {
  }

  /** The accuracy of the 0.5-threshold labels against WIN. The targets are read first;
      the log-loss with labels 0 and 1 refuses any other target, and the ROC AUC refuses a
      single class. */
  function Evaluation(columns: Option<seq<string>>, scaler: Option<Scaler>, classifier: Option<Classifier>, df: Frame): (r: Result<real>)
    requires df.WellFormed()
    ensures Targets(df).Err? ==> r == Err(Targets(df).error)
    ensures Targets(df).Ok? && Probabilities(columns, scaler, classifier, df).Err? ==>
      r == Err(Probabilities(columns, scaler, classifier, df).error)
    ensures r.Ok? ==> Targets(df).Ok? && Probabilities(columns, scaler, classifier, df).Ok?
  {
    var truth :- Targets(df);
    var ps :- Probabilities(columns, scaler, classifier, df);
    if exists i :: 0 <= i < |truth| && truth[i] != 0 && truth[i] != 1 then
      Err(ValueError("y_true contains values not belonging to the passed labels [0, 1]."))
    else if ClassCount(truth) < 2 then
      Err(ValueError("Only one class present in y_true. ROC AUC score is not defined in that case."))
    else
      Ok(Accuracy(truth, Labels(ps, 0.5)))
  }

  /** A successful evaluation saw targets 0 and 1 only, both of them, and reports a
      fraction in [0, 1] that is 1 exactly when every 0.5-threshold label is right. */
  lemma EvaluationAccuracy(columns: Option<seq<string>>, scaler: Option<Scaler>, classifier: Option<Classifier>, df: Frame)
    requires df.WellFormed()
    requires Evaluation(columns, scaler, classifier, df).Ok?
    ensures var truth, ps := Targets(df).value, Probabilities(columns, scaler, classifier, df).value;
      var a := Evaluation(columns, scaler, classifier, df).value;
      && (forall i :: 0 <= i < |truth| ==> truth[i] == 0 || truth[i] == 1)
      && 0 in truth && 1 in truth
      && 0.0 <= a <= 1.0
      && (a == 1.0 <==> forall i :: 0 <= i < |truth| ==> truth[i] == Label(ps[i], 0.5))
  {
    var truth, ps := Targets(df).value, Probabilities(columns, scaler, classifier, df).value;
    assert Evaluation(columns, scaler, classifier, df).value == Accuracy(truth, Labels(ps, 0.5));
    BinaryAccuracy(truth, ps);
  }

  /** The accuracy of two-class 0/1 targets against the 0.5-threshold labels. */
  lemma BinaryAccuracy(truth: seq<int>, ps: seq<real>)
    requires |truth| == |ps| > 0 && ClassCount(truth) >= 2
    requires forall i :: 0 <= i < |truth| ==> truth[i] == 0 || truth[i] == 1
    ensures 0 in truth && 1 in truth
    ensures var a := Accuracy(truth, Labels(ps, 0.5));
      0.0 <= a <= 1.0 && (a == 1.0 <==> forall i :: 0 <= i < |truth| ==> truth[i] == Label(ps[i], 0.5))
  {
    assert (set y | y in truth) <= {0, 1};
    if 0 !in truth {
      assert (set y | y in truth) <= {1};
      SubsetSize(set y | y in truth, {1});
    } else if 1 !in truth {
      assert (set y | y in truth) <= {0};
      SubsetSize(set y | y in truth, {0});
    }
  }

  lemma SubsetSize(a: set<int>, b: set<int>)
    requires a <= b
    ensures |a| <= |b|
  {
    assert b == a + (b - a);
  }

  /** One row's explanation: the features with the largest contributions, as name and
      contribution in order of decreasing magnitude, and the win probability. */
  datatype Explanation = Explanation(features: seq<(string, real)>, probability: real)

  function Abs(x: real): real {
    if x < 0.0 then -x else x
  }

  /** Each feature's contribution to a row's score: its raw value times its coefficient. */
  function Contributions(xs: seq<real>, coef: seq<real>): (cs: seq<real>)
    requires |xs| == |coef|
    ensures |cs| == |xs|
    ensures forall i :: 0 <= i < |xs| ==> cs[i] == xs[i] * coef[i]
  {
    if xs == [] then [] else [xs[0] * coef[0]] + Contributions(xs[1..], coef[1..])
  }

  function Magnitude(cs: seq<real>, i: nat): real {
    if i < |cs| then Abs(cs[i]) else 0.0
  }

  /** `order` lists every feature index once, by decreasing magnitude of contribution. */
  predicate IsRanking(order: seq<nat>, cs: seq<real>) {
    && |order| == |cs| && NoDuplicates(order)
    && (forall k :: 0 <= k < |order| ==> order[k] < |cs|)
    && (forall j :: 0 <= j < |cs| ==> j in order)
    && forall a, b :: 0 <= a < b < |order| ==> Magnitude(cs, order[a]) >= Magnitude(cs, order[b])
  }

  /** The named contributions of the features `picked`, in that order. */
  function Entries(picked: seq<nat>, columns: seq<string>, cs: seq<real>): (es: seq<(string, real)>)
    requires |columns| == |cs| && forall k :: 0 <= k < |picked| ==> picked[k] < |cs|
    ensures |es| == |picked|
    ensures forall k :: 0 <= k < |picked| ==> es[k] == (columns[picked[k]], cs[picked[k]])
  {
    if picked == [] then [] else [(columns[picked[0]], cs[picked[0]])] + Entries(picked[1..], columns, cs)
  }

  /** `e` explains a row with contributions `cs` and win probability `p`: it holds `p` and
      the features of the first `topN` places of some ranking (Python's slice `[:topN]`, so
      a negative `topN` leaves out that many from the end). Which of several equal
      contributions comes first is left open. */
  ghost predicate Explains(e: Explanation, columns: seq<string>, cs: seq<real>, topN: int, p: real)
    requires |columns| == |cs|
  {
    e.probability == p &&
    exists order :: IsRanking(order, cs) && e.features == Entries(order[..SliceEnd(topN, |cs|)], columns, cs)
  }

  function Indices(n: nat): (s: seq<nat>)
    ensures |s| == n && forall i :: 0 <= i < n ==> s[i] == i
  {
    if n == 0 then [] else Indices(n - 1) + [n - 1]
  }

  function ByMagnitude(cs: seq<real>): (nat, nat) -> bool {
    (a: nat, b: nat) => Magnitude(cs, a) >= Magnitude(cs, b)
  }

  /** `np.argsort(-np.abs(contributions))`: the feature indices by decreasing magnitude. */
  function Ranking(cs: seq<real>): seq<nat> {
    SortBy(Indices(|cs|), ByMagnitude(cs))
  }

  lemma RankingIsRanking(cs: seq<real>)
    ensures IsRanking(Ranking(cs), cs)
  {
    var le := ByMagnitude(cs);
    var r := Ranking(cs);
    assert TotalPreorder(le);
    SortBySorted(Indices(|cs|), le);
    assert NoDuplicates(Indices(|cs|));
    PermutationKeepsNoDuplicates(Indices(|cs|), r);
    forall k | 0 <= k < |r| ensures r[k] < |cs| {
      assert r[k] in multiset(Indices(|cs|));
    }
    forall j | 0 <= j < |cs| ensures j in r {
      assert Indices(|cs|)[j] == j;
      assert j in multiset(r);
    }
  }

  /** An explanation shows `topN` features (as a Python slice counts them), each with its
      own name and contribution, in order of decreasing magnitude. */
  lemma ExplainsShape(e: Explanation, columns: seq<string>, cs: seq<real>, topN: int, p: real)
    requires |columns| == |cs| && Explains(e, columns, cs, topN, p)
    ensures e.probability == p
    ensures |e.features| == SliceEnd(topN, |cs|)
    ensures forall k :: 0 <= k < |e.features| ==> exists j :: 0 <= j < |cs| && e.features[k] == (columns[j], cs[j])
    ensures forall a, b :: 0 <= a < b < |e.features| ==> Abs(e.features[a].1) >= Abs(e.features[b].1)
  {
    var order :| IsRanking(order, cs) && e.features == Entries(order[..SliceEnd(topN, |cs|)], columns, cs);
    forall k | 0 <= k < |e.features|
      ensures exists j :: 0 <= j < |cs| && e.features[k] == (columns[j], cs[j])
    {
      assert e.features[k] == (columns[order[k]], cs[order[k]]);
    }
    forall a, b | 0 <= a < b < |e.features|
      ensures Abs(e.features[a].1) >= Abs(e.features[b].1)
    {
      assert Magnitude(cs, order[a]) >= Magnitude(cs, order[b]);
    }
  }

  /** The shown features are the largest: a contribution larger in magnitude than a shown
      one is shown too. */
  lemma ExplainsLargest(e: Explanation, columns: seq<string>, cs: seq<real>, topN: int, p: real, j: nat, k: nat)
    requires |columns| == |cs| && Explains(e, columns, cs, topN, p)
    requires j < |cs| && k < |e.features| && Abs(cs[j]) > Abs(e.features[k].1)
    ensures (columns[j], cs[j]) in e.features
  {
    var order :| IsRanking(order, cs) && e.features == Entries(order[..SliceEnd(topN, |cs|)], columns, cs);
    assert j in order;
    var b :| 0 <= b < |order| && order[b] == j;
    assert Magnitude(cs, order[k]) == Abs(e.features[k].1);
    if b >= |e.features| {
      assert false;
    }
    assert e.features[b] == (columns[j], cs[j]);
  }

  /** The explanation the predictor gives one row. */
  function ExplainRow(columns: seq<string>, cs: seq<real>, topN: int, p: real): (e: Explanation)
    requires |columns| == |cs|
    ensures Explains(e, columns, cs, topN, p)
  {
    var order := Ranking(cs);
    RankingIsRanking(cs);
    Explanation(Entries(order[..SliceEnd(topN, |cs|)], columns, cs), p)
  }

  /** The explanations of a frame's rows: one per row, in row order, each explaining the
      row's zero-filled raw values times the coefficients. */
  ghost predicate ExplainsRows(es: seq<Explanation>, rows: seq<map<string, Cell>>, columns: seq<string>, coef: seq<real>,
                               topN: int, ps: seq<real>)
  {
    && |es| == |rows| == |ps| && |coef| == |columns|
    && forall i :: 0 <= i < |rows| ==>
         && (forall j :: 0 <= j < |columns| ==> columns[j] in rows[i])
         && SelectRow(rows[i], columns).Some?
         && Explains(es[i], columns, Contributions(SelectRow(rows[i], columns).value, coef), topN, ps[i])
  }

  /** Fitting gets as far as the scaler: the feature columns and WIN are there and WIN
      holds integers. */
  predicate ScalerReached(df: Frame, columns: seq<string>)
    requires df.WellFormed()
  {
    Absent(df, columns) == [] && Targets(df).Ok?
  }

  /** The steps of fitting up to and including the scaler succeed: the scaler is reached,
      the features are numbers and there is a row and a feature column. */
  predicate ScalerFits(df: Frame, columns: seq<string>)
    requires df.WellFormed()
  {
    ScalerReached(df, columns) && Select(df.rows, columns).Some? && |df.rows| > 0 && columns != []
  }

  /** The outcome of fitting on a frame: the feature columns and WIN are read (a
      `KeyError` for missing ones, a `ValueError` for a WIN that is not an integer), the
      scaler needs numeric cells and at least one row, the classifier two classes of WIN. */
  function FitOutcome(df: Frame, columns: seq<string>): (r: Outcome)
    requires df.WellFormed()
    ensures r.Pass? ==> ScalerFits(df, columns)
  {
    var missing := Absent(df, columns);
    if missing != [] then Fail(KeyError(NotInIndex(missing)))
    else
      match Targets(df)
      case Err(e) => Fail(e)
      case Ok(targets) =>
        if Select(df.rows, columns).None? then Fail(NotANumber)
        else if |df.rows| == 0 then Fail(NoSamples)
        else if columns == [] then Fail(NoFeatures)
        else if ClassCount(targets) < 2 then
          Fail(ValueError("This solver needs samples of at least 2 classes in the data, but the data contains only one class"))
        else Pass
  }

  /** Fitting fails with a `KeyError` exactly when a feature column or WIN is missing; the
      message lists the missing feature columns, when there are any, in the order given. */
  lemma FitMissingColumns(df: Frame, columns: seq<string>)
    requires df.WellFormed()
    ensures FitOutcome(df, columns).Fail? && FitOutcome(df, columns).error.KeyError? <==>
      Absent(df, columns) != [] || "WIN" !in df.columns
    ensures Absent(df, columns) != [] ==> FitOutcome(df, columns) == Fail(KeyError(NotInIndex(Absent(df, columns))))
  {
  }

  /** A reset scaler never prepares a frame: whatever the frame, a scaler left reset by a
      failed fit makes the preparation an error. */
  lemma ResetScalerPrepares(names: Option<seq<string>>, width: Option<nat>, columns: Option<seq<string>>, df: Frame)
    requires df.WellFormed()
    ensures Prepared(columns, Some(ResetScaler(names, width)), df).Err?
  {
  }

  /** A scaler reset by a failed refit makes every later prediction fail, whatever the
      classifier and the frame. */
  lemma RefitBlocksPrediction(scaler: Option<Scaler>, columns: seq<string>, classifier: Option<Classifier>, df: Frame)
    requires df.WellFormed()
    ensures Probabilities(Some(columns), Some(Refit(scaler, columns)), classifier, df).Err?
  {
    ResetScalerPrepares(if columns == [] then None else Some(columns), FittedWidth(scaler), Some(columns), df);
  }

  /** A classifier whose only fit stopped at the two-class check has no coefficients:
      every prediction fails, and once the rows have the recorded input count the failure
      is the missing `coef_` attribute. */
  lemma FirstFitOneClassBlocksPrediction(columns: Option<seq<string>>, scaler: Option<Scaler>, width: nat, df: Frame)
    requires df.WellFormed()
    ensures var r := Probabilities(columns, scaler, Some(RefitClassifier(None, width)), df);
      r.Err? &&
      (Prepared(columns, scaler, df).Ok? && (forall i :: 0 <= i < |Prepared(columns, scaler, df).value| ==> |Prepared(columns, scaler, df).value[i]| == width) ==>
        r == Err(NoCoef))
  {
    var p := Prepared(columns, scaler, df);
    if p.Ok? {
      assert Probabilities(columns, scaler, Some(RefitClassifier(None, width)), df) ==
        Scores(RefitClassifier(None, width), p.value);
    }
  }

  /** A refit that stopped at the two-class check on as many inputs as before keeps the
      earlier coefficients, so every prediction is what it was before the refit. */
  lemma OneClassRefitKeepsPredictions(columns: Option<seq<string>>, scaler: Option<Scaler>, coef: seq<real>,
                                      proba: seq<real> -> real, df: Frame)
    requires df.WellFormed()
    ensures var before := Some(Classifier(|coef|, Some(coef), proba));
      Probabilities(columns, scaler, Some(RefitClassifier(before, |coef|)), df) == Probabilities(columns, scaler, before, df)
  {
  }

  /** A refit that stopped at the two-class check on a different number of inputs keeps
      coefficients of the old width, so every prediction fails. */
  lemma OneClassRefitOtherWidth(columns: Option<seq<string>>, scaler: Option<Scaler>, coef: seq<real>,
                                proba: seq<real> -> real, width: nat, df: Frame)
    requires df.WellFormed() && width != |coef|
    ensures Probabilities(columns, scaler, Some(RefitClassifier(Some(Classifier(|coef|, Some(coef), proba)), width)), df).Err?
  {
  }

  /** Fitting succeeds exactly when the scaler's step passes and WIN has two classes. */
  lemma FitSucceeds(df: Frame, columns: seq<string>)
    requires df.WellFormed()
    ensures FitOutcome(df, columns).Pass? <==> ScalerFits(df, columns) && ClassCount(Targets(df).value) >= 2
  {
  }

  class MatchupPredictor {
    /** `None` until set, by the constructor or by `Fit`. */
    var featureColumns: Option<seq<string>>
    /** `None` while the scaler is unfitted. */
    var scaler: Option<Scaler>
    /** `None` while the classifier is unfitted. */
    var classifier: Option<Classifier>

    ghost predicate Valid()
      reads this
    {
      && (scaler.Some? ==> scaler.value.Consistent())
      && (classifier.Some? ==> classifier.value.Consistent())
    }

    /** A predictor with the given feature columns and classifier (fitted or not) and an
        unfitted scaler. */
    constructor (featureColumns: Option<seq<string>>, classifier: Option<Classifier>)
      requires classifier.Some? ==> classifier.value.Consistent()
      ensures Valid()
      ensures this.featureColumns == featureColumns && this.classifier == classifier && scaler.None?
    {
      this.featureColumns := featureColumns;
      this.classifier := classifier;
      scaler := None;
    }

    function PrepareFeatures(df: Frame): Result<seq<seq<real>>>
      reads this
      requires df.WellFormed()
    {
      Prepared(featureColumns, scaler, df)
    }

    function PredictProba(df: Frame): Result<seq<real>>
      reads this
      requires df.WellFormed()
    {
      Probabilities(featureColumns, scaler, classifier, df)
    }

    function Predict(df: Frame, threshold: real): Result<seq<int>>
      reads this
      requires df.WellFormed()
    {
      Predictions(featureColumns, scaler, classifier, df, threshold)
    }

    function Evaluate(df: Frame): Result<real>
      reads this
      requires df.WellFormed()
    {
      Evaluation(featureColumns, scaler, classifier, df)
    }

    /** Fitting on a frame: the feature columns are recorded first, whatever happens next.
        Once its step is reached the scaler is refitted: it holds the new transform when
        the step passes and is reset when it fails. The classifier is replaced when the
        whole fit succeeds; when only the two-class check fails it records the new input
        count and keeps what it had learned before. An estimator whose step is not reached
        is left as it was.
        `standardize` and `coef`/`proba` stand for what scikit-learn learns. */
    method Fit(df: Frame, columns: seq<string>, standardize: seq<real> -> seq<real>, coef: seq<real>, proba: seq<real> -> real)
      returns (r: Outcome)
      requires df.WellFormed() && Valid()
      requires forall x :: |standardize(x)| == |x|
      requires |coef| == |columns|
      modifies this
      ensures Valid()
      ensures r == FitOutcome(df, columns)
      ensures featureColumns == Some(columns)
      ensures scaler ==
        if ScalerFits(df, columns) then Some(Scaler(columns, standardize))
        else if ScalerReached(df, columns) then Some(Refit(old(scaler), columns))
        else old(scaler)
      ensures classifier ==
        if r.Pass? then Some(Classifier(|columns|, Some(coef), proba))
        else if ScalerFits(df, columns) then Some(RefitClassifier(old(classifier), |columns|))
        else old(classifier)
    {
      featureColumns := Some(columns);
      r := FitOutcome(df, columns);
      if ScalerFits(df, columns) {
        scaler := Some(Scaler(columns, standardize));
      } else if ScalerReached(df, columns) {
        scaler := Some(Refit(scaler, columns));
      }
      if r.Pass? {
        classifier := Some(Classifier(|columns|, Some(coef), proba));
      } else if ScalerFits(df, columns) {
        classifier := Some(RefitClassifier(classifier, |columns|));
      }
    }

    /** One explanation per row, in row order. Unset feature columns are a `ValueError`
        and a classifier without coefficients an `AttributeError`, checked in that order
        before the probabilities are computed (whose errors pass through). */
    method Explain(df: Frame, topN: int) returns (r: Result<seq<Explanation>>)
      requires df.WellFormed() && Valid()
      ensures featureColumns.None? ==> r == Err(ValueError(NotFittedForExplain))
      ensures featureColumns.Some? && (classifier.None? || classifier.value.Coefficients().None?) ==>
        r == Err(AttributeError(NoCoefficients))
      ensures (featureColumns.Some? && classifier.Some? && classifier.value.Coefficients().Some? &&
        PredictProba(df).Err?) ==> r == Err(PredictProba(df).error)
      ensures r.Ok? ==> featureColumns.Some? && classifier.Some? && classifier.value.Coefficients().Some? && PredictProba(df).Ok?
      ensures r.Ok? ==>
        ExplainsRows(r.value, df.rows, featureColumns.value, classifier.value.Coefficients().value, topN, PredictProba(df).value)
    {
      if featureColumns.None? {
        return Err(ValueError(NotFittedForExplain));
      }
      if classifier.None? || classifier.value.Coefficients().None? {
        return Err(AttributeError(NoCoefficients));
      }
      var coef := classifier.value.Coefficients().value;
      var columns := featureColumns.value;
      var probabilities := PredictProba(df);
      if probabilities.Err? {
        return Err(probabilities.error);
      }
      var ps := probabilities.value;
      RowsHaveCoefficientWidth(featureColumns, scaler, classifier, df);
      var es: seq<Explanation> := [];
      var i := 0;
      while i < |df.rows|
        invariant 0 <= i <= |df.rows| && |es| == i
        invariant forall k :: 0 <= k < i ==>
          Explains(es[k], columns, Contributions(SelectRow(df.rows[k], columns).value, coef), topN, ps[k])
      {
        var cs := Contributions(SelectRow(df.rows[i], columns).value, coef);
        es := es + [ExplainRow(columns, cs, topN, ps[i])];
        i := i + 1;
      }
      return Ok(es);
    }
  }

  /** When the probabilities exist, every row's selected values exist and there are as
      many feature columns as coefficients. */
  lemma RowsHaveCoefficientWidth(columns: Option<seq<string>>, scaler: Option<Scaler>, classifier: Option<Classifier>, df: Frame)
    requires df.WellFormed()
    requires scaler.Some? ==> scaler.value.Consistent()
    requires classifier.Some? ==> classifier.value.Consistent()
    requires Probabilities(columns, scaler, classifier, df).Ok? && classifier.value.Coefficients().Some?
    ensures columns.Some? && |classifier.value.Coefficients().value| == |columns.value|
    ensures forall i :: 0 <= i < |df.rows| ==>
      (forall j :: 0 <= j < |columns.value| ==> columns.value[j] in df.rows[i]) &&
      SelectRow(df.rows[i], columns.value).Some?
  {
    var x := Prepared(columns, scaler, df).value;
    var sel := SelectRow(df.rows[0], columns.value).value;
    assert |x[0]| == |scaler.value.standardize(sel)| == |sel|;
  }
}
