/** The pandas reductions the pipeline uses, over exact reals: `sum` and `mean` that skip
    missing values, arithmetic that propagates them, `nunique` and `mode`. */
module Stats {
  import opened Common
  import Text
  import Sorting

  /** pandas `sum`: missing values are skipped, and a column with none present sums to 0. */
  function SumPresent(xs: seq<Option<real>>): real {
    if xs == [] then 0.0 else xs[0].GetOr(0.0) + SumPresent(xs[1..])
  }

  /** pandas `count`: the number of present values. */
  function CountPresent(xs: seq<Option<real>>): (n: nat)
    ensures n <= |xs|
  {
    if xs == [] then 0 else (if xs[0].Some? then 1 else 0) + CountPresent(xs[1..])
  }

  /** pandas `mean`: the mean of the present values, missing when there are none. */
  function MeanPresent(xs: seq<Option<real>>): Option<real> {
    var n := CountPresent(xs);
    if n == 0 then None else Some(SumPresent(xs) / n as real)
  }

  /** `a - b` on possibly-missing values: missing if either side is. */
  function Sub(a: Option<real>, b: Option<real>): Option<real> {
    if a.Some? && b.Some? then Some(a.value - b.value) else None
  }

  function Neg(a: Option<real>): Option<real> {
    if a.Some? then Some(-a.value) else None
  }

  /** Subtraction in the other order negates the result, missing values included. */
  lemma SubSwap(a: Option<real>, b: Option<real>)
    ensures Sub(b, a) == Neg(Sub(a, b))
  {
  }

  lemma {:induction false} SumBounds(xs: seq<Option<real>>, lo: real, hi: real)
    requires forall i :: 0 <= i < |xs| && xs[i].Some? ==> lo <= xs[i].value <= hi
    ensures lo * CountPresent(xs) as real <= SumPresent(xs) <= hi * CountPresent(xs) as real
  {
    if xs != [] {
      SumBounds(xs[1..], lo, hi);
      var c := CountPresent(xs[1..]) as real;
      if xs[0].Some? {
        assert lo * (c + 1.0) == lo * c + lo;
        assert hi * (c + 1.0) == hi * c + hi;
      }
    }
  }

  /** From `lo * n <= s <= hi * n` with `n > 0`, the quotient `s / n` lies in `[lo, hi]`. */
  lemma QuotientBetween(s: real, n: real, lo: real, hi: real)
    requires n > 0.0 && lo * n <= s <= hi * n
    ensures lo <= s / n <= hi
  {
    assert s / n - lo == (s - lo * n) / n;
    assert hi - s / n == (hi * n - s) / n;
  }

  /** A mean lies between the smallest and largest present value. */
  lemma MeanBetween(xs: seq<Option<real>>, lo: real, hi: real)
    requires forall i :: 0 <= i < |xs| && xs[i].Some? ==> lo <= xs[i].value <= hi
    ensures MeanPresent(xs).Some? ==> lo <= MeanPresent(xs).value <= hi
  {
    SumBounds(xs, lo, hi);
    var n := CountPresent(xs);
    if n > 0 {
      QuotientBetween(SumPresent(xs), n as real, lo, hi);
    }
  }

  /** A mean is present exactly when some value is. */
  lemma MeanPresentWhenSomeValue(xs: seq<Option<real>>)
    ensures MeanPresent(xs).Some? <==> exists i :: 0 <= i < |xs| && xs[i].Some?
  {
    if xs != [] {
      MeanPresentWhenSomeValue(xs[1..]);
      if xs[0].None? {
        forall i | 0 < i < |xs| && xs[i].Some? ensures xs[1..][i - 1].Some? { }
      }
    }
  }

  lemma SumAppend(xs: seq<Option<real>>, ys: seq<Option<real>>)
    ensures SumPresent(xs + ys) == SumPresent(xs) + SumPresent(ys)
    ensures CountPresent(xs + ys) == CountPresent(xs) + CountPresent(ys)
  {
    if xs == [] {
      assert xs + ys == ys;
    } else {
      assert (xs + ys)[1..] == xs[1..] + ys;
      SumAppend(xs[1..], ys);
    }
  }

  /** Sums and counts do not depend on the order of the values. */
  lemma {:induction false} SumPermutation(xs: seq<Option<real>>, ys: seq<Option<real>>)
    requires multiset(xs) == multiset(ys)
    ensures SumPresent(xs) == SumPresent(ys) && CountPresent(xs) == CountPresent(ys)
    decreases |xs|
  {
    if xs == [] {
      assert ys == [];
    } else {
      assert xs[0] in multiset(ys);
      var k :| 0 <= k < |ys| && ys[k] == xs[0];
      var rest := RemoveAt(ys, k);
      assert xs == [xs[0]] + xs[1..];
      assert multiset(xs[1..]) == multiset(xs) - multiset{xs[0]};
      SumPermutation(xs[1..], rest);
      SumRemoveAt(ys, k);
    }
  }

  function RemoveAt<T>(ys: seq<T>, k: nat): (r: seq<T>)
    requires k < |ys|
    ensures multiset(r) == multiset(ys) - multiset{ys[k]}
  {
    assert ys == ys[..k] + [ys[k]] + ys[k + 1..];
    ys[..k] + ys[k + 1..]
  }

  lemma {:induction false} SumRemoveAt(ys: seq<Option<real>>, k: nat)
    requires k < |ys|
    ensures SumPresent(ys) == ys[k].GetOr(0.0) + SumPresent(RemoveAt(ys, k))
    ensures CountPresent(ys) == (if ys[k].Some? then 1 else 0) + CountPresent(RemoveAt(ys, k))
  {
    var front, back := ys[..k], ys[k + 1..];
    var tail := [ys[k]] + back;
    assert ys == front + tail;
    assert RemoveAt(ys, k) == front + back;
    SumAppend(front, tail);
    SumAppend(front, back);
    assert tail[0] == ys[k] && tail[1..] == back;
  }

  /** pandas `clip(lower=1)`. */
  function ClipBelowOne(x: Option<real>): Option<real> {
    if x.Some? && x.value < 1.0 then Some(1.0) else x
  }

  /** The products `w * x` summed by pandas `sum`: rows where either side is missing add nothing. */
  function WeightedSum(xs: seq<Option<real>>, ws: seq<Option<real>>): real
    requires |xs| == |ws|
  {
    if xs == [] then 0.0
    else (if xs[0].Some? && ws[0].Some? then ws[0].value * xs[0].value else 0.0) + WeightedSum(xs[1..], ws[1..])
  }

  /** One row's `w * x`, missing when either side is. */
  function Product(x: Option<real>, w: Option<real>): Option<real> {
    if x.Some? && w.Some? then Some(w.value * x.value) else None
  }

  function Products(xs: seq<Option<real>>, ws: seq<Option<real>>): (ps: seq<Option<real>>)
    requires |xs| == |ws|
    ensures |ps| == |xs|
    ensures forall i :: 0 <= i < |xs| ==> ps[i] == Product(xs[i], ws[i])
  {
    if xs == [] then [] else [Product(xs[0], ws[0])] + Products(xs[1..], ws[1..])
  }

  /** The weighted sum is the plain sum of the row products. */
  lemma {:induction false} WeightedSumOfProducts(xs: seq<Option<real>>, ws: seq<Option<real>>)
    requires |xs| == |ws|
    ensures WeightedSum(xs, ws) == SumPresent(Products(xs, ws))
  {
    if xs != [] {
      WeightedSumOfProducts(xs[1..], ws[1..]);
      assert Products(xs, ws)[1..] == Products(xs[1..], ws[1..]);
    }
  }

  /** `(x * w).sum() / w.sum()`: a value that is missing in a row still has that row's
      weight counted in the denominator; with no weight present the quotient is 0/0, missing. */
  function WeightedMean(xs: seq<Option<real>>, ws: seq<Option<real>>): Option<real>
    requires |xs| == |ws|
  {
    var total := SumPresent(ws);
    if total == 0.0 then None else Some(WeightedSum(xs, ws) / total)
  }

  lemma {:induction false} WeightedSumBounds(xs: seq<Option<real>>, ws: seq<Option<real>>, lo: real, hi: real)
    requires |xs| == |ws|
    requires forall i :: 0 <= i < |xs| ==> xs[i].Some? && lo <= xs[i].value <= hi
    requires forall i :: 0 <= i < |ws| && ws[i].Some? ==> ws[i].value >= 0.0
    ensures lo * SumPresent(ws) <= WeightedSum(xs, ws) <= hi * SumPresent(ws)
  {
    if xs != [] {
      WeightedSumBounds(xs[1..], ws[1..], lo, hi);
      WeightedStep(xs, ws, lo, hi);
    }
  }

  lemma {:induction false} WeightedStep(xs: seq<Option<real>>, ws: seq<Option<real>>, lo: real, hi: real)
    requires |xs| == |ws| && xs != []
    requires xs[0].Some? && lo <= xs[0].value <= hi
    requires ws[0].Some? ==> ws[0].value >= 0.0
    requires lo * SumPresent(ws[1..]) <= WeightedSum(xs[1..], ws[1..]) <= hi * SumPresent(ws[1..])
    ensures lo * SumPresent(ws) <= WeightedSum(xs, ws) <= hi * SumPresent(ws)
  {
    if ws[0].Some? {
      WeightedStepPresent(xs, ws, lo, hi);
    } else {
      WeightedStepMissing(xs, ws, lo, hi);
    }
  }

  lemma {:induction false} WeightedStepPresent(xs: seq<Option<real>>, ws: seq<Option<real>>, lo: real, hi: real)
    requires |xs| == |ws| && xs != []
    requires xs[0].Some? && lo <= xs[0].value <= hi
    requires ws[0].Some? && ws[0].value >= 0.0
    requires lo * SumPresent(ws[1..]) <= WeightedSum(xs[1..], ws[1..]) <= hi * SumPresent(ws[1..])
    ensures lo * SumPresent(ws) <= WeightedSum(xs, ws) <= hi * SumPresent(ws)
  {
    var s, t := SumPresent(ws[1..]), WeightedSum(xs[1..], ws[1..]);
    Combine(lo, hi, ws[0].value, xs[0].value, s, t, SumPresent(ws), WeightedSum(xs, ws));
  }

  lemma {:induction false} WeightedStepMissing(xs: seq<Option<real>>, ws: seq<Option<real>>, lo: real, hi: real)
    requires |xs| == |ws| && xs != []
    requires ws[0].None?
    requires lo * SumPresent(ws[1..]) <= WeightedSum(xs[1..], ws[1..]) <= hi * SumPresent(ws[1..])
    ensures lo * SumPresent(ws) <= WeightedSum(xs, ws) <= hi * SumPresent(ws)
  {
    assert SumPresent(ws) == SumPresent(ws[1..]);
    assert WeightedSum(xs, ws) == WeightedSum(xs[1..], ws[1..]);
  }

  /** Adding one weighted value in `[lo, hi]` keeps the running bounds. */
  lemma Combine(lo: real, hi: real, w: real, x: real, s: real, t: real, total: real, weighted: real)
    requires w >= 0.0 && lo <= x <= hi
    requires lo * s <= t <= hi * s
    requires total == w + s && weighted == w * x + t
    ensures lo * total <= weighted <= hi * total
  {
    ProductBetween(w, x, lo, hi);
    Distribute(lo, hi, w, x, s, t);
  }

  lemma Distribute(lo: real, hi: real, w: real, x: real, s: real, t: real)
    requires lo * s <= t <= hi * s
    requires lo * w <= w * x <= hi * w
    ensures lo * (w + s) <= w * x + t <= hi * (w + s)
  {
    assert lo * (w + s) == lo * w + lo * s;
    assert hi * (w + s) == hi * w + hi * s;
  }

  lemma ProductBetween(w: real, x: real, lo: real, hi: real)
    requires w >= 0.0 && lo <= x <= hi
    ensures lo * w <= w * x <= hi * w
  {
    assert w * x - lo * w == w * (x - lo);
    assert hi * w - w * x == w * (hi - x);
  }

  /** With every value present and non-negative weights, the weighted mean lies between
      the smallest and largest value. */
  lemma WeightedMeanBetween(xs: seq<Option<real>>, ws: seq<Option<real>>, lo: real, hi: real)
    requires |xs| == |ws|
    requires forall i :: 0 <= i < |xs| ==> xs[i].Some? && lo <= xs[i].value <= hi
    requires forall i :: 0 <= i < |ws| && ws[i].Some? ==> ws[i].value >= 0.0
    ensures WeightedMean(xs, ws).Some? ==> lo <= WeightedMean(xs, ws).value <= hi
  {
    WeightedSumBounds(xs, ws, lo, hi);
    var t := SumPresent(ws);
    NonNegativeSum(ws);
    if t != 0.0 {
      QuotientBetween(WeightedSum(xs, ws), t, lo, hi);
    }
  }

  lemma NonNegativeSum(ws: seq<Option<real>>)
    requires forall i :: 0 <= i < |ws| && ws[i].Some? ==> ws[i].value >= 0.0
    ensures SumPresent(ws) >= 0.0
  {
    if ws != [] {
      NonNegativeSum(ws[1..]);
    }
  }

  /** pandas `nunique`: the number of distinct values. */
  function NUnique<T(==,!new)>(xs: seq<T>): (n: nat)
    ensures n <= |xs|
    ensures xs != [] ==> n >= 1
  {
    var d := Sorting.Distinct(xs);
    assert xs != [] ==> xs[0] in d;
    |d|
  }

  /** The index of the first candidate that occurs in `xs` most often. */
  function FirstMostFrequent(cands: seq<string>, xs: seq<string>): (i: nat)
    requires cands != []
    ensures i < |cands|
    ensures forall j :: 0 <= j < |cands| ==> multiset(xs)[cands[j]] <= multiset(xs)[cands[i]]
    ensures forall j :: 0 <= j < i ==> multiset(xs)[cands[j]] < multiset(xs)[cands[i]]
  {
    if |cands| == 1 then 0
    else
      var prefix := cands[..|cands| - 1];
      var best := FirstMostFrequent(prefix, xs);
      assert forall j :: 0 <= j < |prefix| ==> prefix[j] == cands[j];
      if multiset(xs)[cands[|cands| - 1]] > multiset(xs)[cands[best]] then |cands| - 1 else best
  }

  /** `x.mode().iat[0]`: the most frequent string, the smallest one among equally frequent
      ones (pandas sorts the modes); missing for an empty column. */
  function Mode(xs: seq<string>): (m: Option<string>)
    ensures m.None? <==> xs == []
    ensures m.Some? ==> m.value in xs
    ensures m.Some? ==> forall y :: y in xs ==> multiset(xs)[y] <= multiset(xs)[m.value]
    ensures m.Some? ==> forall y :: y in xs && multiset(xs)[y] == multiset(xs)[m.value] ==> Text.StrLe(m.value, y)
  {
    if xs == [] then None
    else
      var cands := Text.SortedSet(xs);
      assert xs[0] in cands;
      var i := FirstMostFrequent(cands, xs);
      assert forall y :: y in xs && multiset(xs)[y] == multiset(xs)[cands[i]] ==> Text.StrLe(cands[i], y) by {
        forall y | y in xs && multiset(xs)[y] == multiset(xs)[cands[i]] ensures Text.StrLe(cands[i], y) {
          var j :| 0 <= j < |cands| && cands[j] == y;
          if j < i {
            assert false;
          } else if j == i {
            Text.StrLeTotal(y, y);
          }
        }
      }
      Some(cands[i])
  }

  /** In the weighted mean a row whose value is missing still adds its weight to the
      denominator, so it pulls the mean toward 0, unlike the plain mean, which skips it. */
  lemma WeightedMeanCountsMissingWeight()
    ensures MeanPresent([Some(10.0), None]) == Some(10.0)
    ensures WeightedMean([Some(10.0), None], [Some(1.0), Some(1.0)]) == Some(5.0)
  {
    assert [Some(10.0), None][1..] == [None];
    assert [Some(1.0), Some(1.0)][1..] == [Some(1.0)];
  }
}
