/**
 * The statistics of src/pairs_trading/stats.py around the statsmodels calls: the
 * small-sample guards of the Engle-Granger and ADF tests, and the window loop of the
 * rolling OLS hedge ratio. The statsmodels routines are parameters: `coint` and `adf`
 * map the observations to a p-value, `ols` maps a window (ys, xs) to the slope of
 * `ys ~ const + beta * xs`.
 */
module Stats {
  import opened Series

  /** At least this many observations are needed before a test is run. */
  const MinObservations: nat := 50

  /** One row of `DataFrame({"y": y, "x": x}).dropna()`. */
  datatype Obs = Obs(y: real, x: real)

  /** The rows where both series have a value, in date order. */
  function Joint(y: seq<Option<real>>, x: seq<Option<real>>): (j: seq<Obs>)
    requires |y| == |x|
    ensures |j| <= |y|
  {
    if |y| == 0 then []
    else
      var n := |y| - 1;
      Joint(y[..n], x[..n]) + (if y[n].Some? && x[n].Some? then [Obs(y[n].value, x[n].value)] else [])
  }

  function Ys(j: seq<Obs>): (r: seq<real>)
    ensures |r| == |j| && forall k :: 0 <= k < |j| ==> r[k] == j[k].y
  {
    seq(|j|, k requires 0 <= k < |j| => j[k].y)
  }

  function Xs(j: seq<Obs>): (r: seq<real>)
    ensures |r| == |j| && forall k :: 0 <= k < |j| ==> r[k] == j[k].x
  {
    seq(|j|, k requires 0 <= k < |j| => j[k].x)
  }

  /** The joint rows up to a date are a prefix of all the joint rows. */
  lemma {:induction false} JointPrefix(y: seq<Option<real>>, x: seq<Option<real>>, n: nat)
    requires |y| == |x| && n <= |y|
    ensures |Joint(y[..n], x[..n])| <= |Joint(y, x)|
    ensures Joint(y[..n], x[..n]) == Joint(y, x)[..|Joint(y[..n], x[..n])|]
  {
    if n < |y| {
      var m := |y| - 1;
      assert y[..m][..n] == y[..n] && x[..m][..n] == x[..n];
      JointPrefix(y[..m], x[..m], n);
    } else {
      assert y[..n] == y && x[..n] == x;
    }
  }

  /** Where both series have a value at `t`, that pair is the next joint row after the earlier ones. */
  lemma JointAt(y: seq<Option<real>>, x: seq<Option<real>>, t: nat)
    requires |y| == |x| && t < |y| && y[t].Some? && x[t].Some?
    ensures |Joint(y[..t], x[..t])| < |Joint(y, x)|
    ensures Joint(y, x)[|Joint(y[..t], x[..t])|] == Obs(y[t].value, x[t].value)
    ensures |Joint(y[..t + 1], x[..t + 1])| == |Joint(y[..t], x[..t])| + 1
  {
    assert y[..t + 1][..t] == y[..t] && x[..t + 1][..t] == x[..t];
    JointPrefix(y, x, t + 1);
  }

  /** A pair of values is a joint row exactly when some date holds both. */
  lemma {:induction false} JointMembers(y: seq<Option<real>>, x: seq<Option<real>>, a: real, b: real)
    requires |y| == |x|
    ensures Obs(a, b) in Joint(y, x) <==> exists i :: 0 <= i < |y| && y[i] == Some(a) && x[i] == Some(b)
  {
    if |y| > 0 {
      var n := |y| - 1;
      JointMembers(y[..n], x[..n], a, b);
      if exists i :: 0 <= i < |y| && y[i] == Some(a) && x[i] == Some(b) {
        var i :| 0 <= i < |y| && y[i] == Some(a) && x[i] == Some(b);
        if i < n {
          assert y[..n][i] == Some(a) && x[..n][i] == Some(b);
        }
      }
      if Obs(a, b) in Joint(y[..n], x[..n]) {
        var i :| 0 <= i < n && y[..n][i] == Some(a) && x[..n][i] == Some(b);
        assert y[i] == Some(a) && x[i] == Some(b);
      }
    }
  }

  /** There are no more joint rows than values in either series. */
  lemma {:induction false} JointAtMostDefined(y: seq<Option<real>>, x: seq<Option<real>>)
    requires |y| == |x|
    ensures |Joint(y, x)| <= |Defined(y)| && |Joint(y, x)| <= |Defined(x)|
  {
    if |y| > 0 {
      var n := |y| - 1;
      JointAtMostDefined(y[..n], x[..n]);
      assert y == y[..n] + [y[n]] && x == x[..n] + [x[n]];
      DefinedAppend(y[..n], [y[n]]);
      DefinedAppend(x[..n], [x[n]]);
    }
  }

  // ---------------------------------------------------------------------------
  // The p-value guards

  /** `engle_granger_coint_pvalue`: undefined below 50 joint rows, else the test's p-value. */
  function EngleGrangerPValue(y: seq<Option<real>>, x: seq<Option<real>>, coint: (seq<real>, seq<real>) -> real): (p: Option<real>)
    requires |y| == |x|
    ensures p.None? <==> |Joint(y, x)| < MinObservations
    ensures p.Some? ==> p.value == coint(Ys(Joint(y, x)), Xs(Joint(y, x)))
  {
    var j := Joint(y, x);
    if |j| < MinObservations then None else Some(coint(Ys(j), Xs(j)))
  }

  /** Too few values in either series already makes the cointegration p-value undefined. */
  lemma EngleGrangerShortSeries(y: seq<Option<real>>, x: seq<Option<real>>, coint: (seq<real>, seq<real>) -> real)
    requires |y| == |x|
    requires |Defined(y)| < MinObservations || |Defined(x)| < MinObservations
    ensures EngleGrangerPValue(y, x, coint).None?
  {
    JointAtMostDefined(y, x);
  }

  /** `adf_pvalue`: undefined below 50 values, else the test's p-value on the values. */
  function AdfPValue(s: seq<Option<real>>, adf: seq<real> -> real): (p: Option<real>)
    ensures p.None? <==> |Defined(s)| < MinObservations
    ensures p.Some? ==> p.value == adf(Defined(s))
  {
    var d := Defined(s);
    if |d| < MinObservations then None else Some(adf(d))
  }

  // ---------------------------------------------------------------------------
  // The rolling hedge ratio

  /** The slope at joint row `k`: undefined in the warm-up, else OLS over rows k-lookback+1..k. */
  function WindowBeta(j: seq<Obs>, lookback: nat, ols: (seq<real>, seq<real>) -> real, k: nat): Option<real>
    requires lookback >= 1 && k < |j|
  {
    if k + 1 < lookback then None
    else
      var w := j[k + 1 - lookback .. k + 1];
      Some(ols(Ys(w), Xs(w)))
  }

  /**
   * The hedge ratio on date `t` as the source promises it, computed only from the
   * dates up to `t`: undefined unless both prices exist on `t` and there are at least
   * `lookback` joint rows so far; then OLS over the last `lookback` joint rows.
   */
  function BetaAt(y: seq<Option<real>>, x: seq<Option<real>>, lookback: nat, ols: (seq<real>, seq<real>) -> real, t: nat): Option<real>
    requires |y| == |x| && t < |y|
  {
    if y[t].None? || x[t].None? then None
    else
      var seen := Joint(y[..t + 1], x[..t + 1]);
      if |seen| < lookback then None
      else
        var w := seen[|seen| - lookback..];
        Some(ols(Ys(w), Xs(w)))
  }

  function BetaSeries(y: seq<Option<real>>, x: seq<Option<real>>, lookback: nat, ols: (seq<real>, seq<real>) -> real): (b: seq<Option<real>>)
    requires |y| == |x|
    ensures |b| == |y|
    ensures forall t :: 0 <= t < |y| ==> b[t] == BetaAt(y, x, lookback, ols, t)
  {
    seq(|y|, t requires 0 <= t < |y| => BetaAt(y, x, lookback, ols, t))
  }

  /**
   * Along the joint rows: the date `t` that holds joint row `k` gets the slope of
   * rows k-lookback+1..k (exactly `lookback` rows), undefined for k < lookback - 1
   * and defined for every later k.
   */
  lemma BetaAlongJoint(y: seq<Option<real>>, x: seq<Option<real>>, lookback: nat, ols: (seq<real>, seq<real>) -> real, t: nat)
    requires |y| == |x| && t < |y| && y[t].Some? && x[t].Some? && lookback >= 1
    ensures |Joint(y[..t], x[..t])| < |Joint(y, x)|
    ensures BetaAt(y, x, lookback, ols, t) == WindowBeta(Joint(y, x), lookback, ols, |Joint(y[..t], x[..t])|)
    ensures BetaAt(y, x, lookback, ols, t).None? <==> |Joint(y[..t], x[..t])| < lookback - 1
  {
    var k := |Joint(y[..t], x[..t])|;
    JointAt(y, x, t);
    JointPrefix(y, x, t + 1);
    var seen := Joint(y[..t + 1], x[..t + 1]);
    var here := if |seen| < lookback then None else Some(ols(Ys(seen[|seen| - lookback..]), Xs(seen[|seen| - lookback..])));
    assert BetaAt(y, x, lookback, ols, t) == here;
    WindowOfPrefix(Joint(y, x), seen, lookback, ols, k);
  }

  /** The last `lookback` rows of the first k + 1 rows are rows k-lookback+1..k. */
  lemma WindowOfPrefix(all: seq<Obs>, seen: seq<Obs>, lookback: nat, ols: (seq<real>, seq<real>) -> real, k: nat)
    requires lookback >= 1 && k < |all| && seen == all[..k + 1]
    ensures WindowBeta(all, lookback, ols, k) ==
      if |seen| < lookback then None else Some(ols(Ys(seen[|seen| - lookback..]), Xs(seen[|seen| - lookback..])))
  {
    if k + 1 >= lookback {
      assert seen[|seen| - lookback..] == all[k + 1 - lookback .. k + 1];
    }
  }

  /** The re-indexed slope is undefined wherever either price is missing. */
  lemma BetaMissingPrice(y: seq<Option<real>>, x: seq<Option<real>>, lookback: nat, ols: (seq<real>, seq<real>) -> real, t: nat)
    requires |y| == |x| && t < |y| && (y[t].None? || x[t].None?)
    ensures BetaSeries(y, x, lookback, ols)[t].None?
  {
  }

  /** No lookahead: the slope on date `t` does not depend on any date after `t`. */
  lemma BetaNoLookahead(y: seq<Option<real>>, x: seq<Option<real>>, y': seq<Option<real>>, x': seq<Option<real>>,
                        lookback: nat, ols: (seq<real>, seq<real>) -> real, t: nat)
    requires |y| == |x| && |y'| == |x'| && t < |y| && t < |y'|
    requires y[..t + 1] == y'[..t + 1] && x[..t + 1] == x'[..t + 1]
    ensures BetaAt(y, x, lookback, ols, t) == BetaAt(y', x', lookback, ols, t)
  {
    assert y[t] == y[..t + 1][t] && y'[t] == y'[..t + 1][t];
    assert x[t] == x[..t + 1][t] && x'[t] == x'[..t + 1][t];
  }

  /** `out.reindex(y2.index)`: joint-row values put back on their dates, `None` elsewhere. */
  function ReindexJoint(y: seq<Option<real>>, x: seq<Option<real>>, vals: seq<Option<real>>): (r: seq<Option<real>>)
    requires |y| == |x| && |vals| == |Joint(y, x)|
    ensures |r| == |y|
  {
    if |y| == 0 then []
    else
      var n := |y| - 1;
      var both := y[n].Some? && x[n].Some?;
      var above := if both then vals[..|vals| - 1] else vals;
      ReindexJoint(y[..n], x[..n], above) + [if both then vals[|vals| - 1] else None]
  }

  lemma {:induction false} ReindexAt(y: seq<Option<real>>, x: seq<Option<real>>, vals: seq<Option<real>>, t: nat)
    requires |y| == |x| && |vals| == |Joint(y, x)| && t < |y|
    ensures y[t].Some? && x[t].Some? ==> |Joint(y[..t], x[..t])| < |vals|
    ensures ReindexJoint(y, x, vals)[t] ==
      if y[t].Some? && x[t].Some? then vals[|Joint(y[..t], x[..t])|] else None
  {
    var n := |y| - 1;
    var both := y[n].Some? && x[n].Some?;
    var above := if both then vals[..|vals| - 1] else vals;
    if t == n {
      assert y[..n] == y[..t] && x[..n] == x[..t];
    } else {
      assert y[..n][t] == y[t] && x[..n][t] == x[t];
      assert y[..n][..t] == y[..t] && x[..n][..t] == x[..t];
      ReindexAt(y[..n], x[..n], above, t);
    }
  }

  /**
   * `rolling_ols_beta`: fills a preallocated array over the joint rows, leaving the
   * warm-up undefined, then re-indexes it onto every date.
   */
  method RollingOlsBeta(y: seq<Option<real>>, x: seq<Option<real>>, lookback: nat, ols: (seq<real>, seq<real>) -> real)
      returns (beta: seq<Option<real>>)
    requires |y| == |x| && lookback >= 1
    ensures beta == BetaSeries(y, x, lookback, ols)
  {
    var df := Joint(y, x);
    var betas := new Option<real>[|df|](_ => None);
    var i := lookback - 1;
    while i < betas.Length
      invariant lookback - 1 <= i
      invariant i > lookback - 1 ==> i <= betas.Length
      invariant forall k :: 0 <= k < betas.Length ==>
                  betas[k] == if k < i then WindowBeta(df, lookback, ols, k) else None
    {
      var w := df[i - lookback + 1 .. i + 1];
      betas[i] := Some(ols(Ys(w), Xs(w)));
      i := i + 1;
    }
    beta := ReindexJoint(y, x, betas[..]);
    ReindexWindows(y, x, lookback, ols, betas[..]);
  }

  /** Re-indexing the window slopes of the joint rows gives the reference hedge-ratio series. */
  lemma ReindexWindows(y: seq<Option<real>>, x: seq<Option<real>>, lookback: nat,
                       ols: (seq<real>, seq<real>) -> real, vals: seq<Option<real>>)
    requires |y| == |x| && lookback >= 1 && |vals| == |Joint(y, x)|
    requires forall k :: 0 <= k < |vals| ==> vals[k] == WindowBeta(Joint(y, x), lookback, ols, k)
    ensures ReindexJoint(y, x, vals) == BetaSeries(y, x, lookback, ols)
  {
    var beta := ReindexJoint(y, x, vals);
    forall t | 0 <= t < |y| ensures beta[t] == BetaAt(y, x, lookback, ols, t) {
      ReindexAt(y, x, vals, t);
      if y[t].Some? && x[t].Some? {
        BetaAlongJoint(y, x, lookback, ols, t);
      }
    }
  }
}
