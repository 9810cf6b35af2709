/**
 * The series behind the plots of src/pairs_trading/plotting.py: the equity curve built
 * from simple returns and its drawdown. The drawdown itself is `Series.Drawdown`,
 * shared with `max_drawdown`; the figures are not modelled.
 */
module Plotting {
  import opened Series
  import Metrics

  /**
   * `equity_curve_from_returns`, written as the compounding it performs: the first value
   * is `start * (1 + r[0])` and every later value grows the previous one by `1 + r[i]`,
   * a missing return counting as 0.
   */
  function EquityCurveFromReturns(r: seq<Option<real>>, start: real): (eq: seq<real>)
    ensures |eq| == |r|
    ensures |r| > 0 ==> eq[0] == Compound(start, r[0])
    ensures forall i :: 0 < i < |r| ==> eq[i] == Compound(eq[i - 1], r[i])
  {
    if |r| == 0 then []
    else
      var n := |r| - 1;
      var before := r[..n];
      var prev := EquityCurveFromReturns(before, start);
      var eq := prev + [Compound(if n == 0 then start else prev[n - 1], r[n])];
      assert forall i :: 0 <= i < n ==> eq[i] == prev[i] && before[i] == r[i];
      eq
  }

  lemma {:induction false} AgreeAt(r: seq<Option<real>>, start: real, i: nat)
    requires i < |r|
    ensures EquityCurveFromReturns(r, start)[i] == Metrics.EquityCurve(r, start)[i]
  {
    Metrics.EquityStep(r, start, i);
    var mine := EquityCurveFromReturns(r, start);
    var theirs := Metrics.EquityCurve(r, start);
    if i > 0 {
      AgreeAt(r, start, i - 1);
      assert mine[i] == Compound(mine[i - 1], r[i]);
      assert theirs[i] == Compound(theirs[i - 1], r[i]);
    } else {
      assert mine[0] == Compound(start, r[0]);
    }
  }

  /**
   * The compounding and the closed form `start * prod(1 + r[j], j <= i)` used by
   * `metrics.equity_curve` give the same curve.
   */
  lemma SameAsMetricsCurve(r: seq<Option<real>>, start: real)
    ensures EquityCurveFromReturns(r, start) == Metrics.EquityCurve(r, start)
  {
    forall i | 0 <= i < |r| ensures EquityCurveFromReturns(r, start)[i] == Metrics.EquityCurve(r, start)[i] {
      AgreeAt(r, start, i);
    }
  }

  /**
   * `drawdown_from_equity(equity_curve_from_returns(r, start))`: from a positive start,
   * with every return above -100%, every drawdown is defined and not above zero.
   */
  lemma PlottedDrawdownNonPositive(r: seq<Option<real>>, start: real, i: nat)
    requires Metrics.AboveMinusOne(r) && start > 0.0 && i < |r|
    ensures Drawdown(EquityCurveFromReturns(r, start))[i].Some?
    ensures Drawdown(EquityCurveFromReturns(r, start))[i].value <= 0.0
  {
    SameAsMetricsCurve(r, start);
    Metrics.EquityPositive(r, start, i);
  }
}
