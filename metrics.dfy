/**
 * Performance metrics (src/pairs_trading/metrics.py) over a series of simple daily
 * returns. The fractional power of the annualised return and the square roots of the
 * Sharpe ratio are parameters: `pow(b, e)` is b to the power e, `sqrt` the square root.
 */
module Metrics {
  import opened Series
  import Sorting

  /** Trading days per year. */
  const TradingDays: nat := 252

  /** Every defined return is above -100%, so no equity is wiped out. */
  predicate AboveMinusOne(r: seq<Option<real>>)
  {
    forall i :: 0 <= i < |r| && r[i].Some? ==> r[i].value > -1.0
  }

  /** `(1 + r.fillna(0)).cumprod() * start`. */
  function EquityCurve(r: seq<Option<real>>, start: real): (eq: seq<real>)
    ensures |eq| == |r|
  {
    var c := CumProd(Growth(FillZero(r)));
    seq(|r|, i requires 0 <= i < |r| => c[i] * start)
  }

  /**
   * The equity recurrence: `eq[0] = start * (1 + r[0])` and
   * `eq[i] = eq[i - 1] * (1 + r[i])`, an undefined return counting as 0.
   */
  lemma EquityStep(r: seq<Option<real>>, start: real, i: nat)
    requires i < |r|
    ensures EquityCurve(r, start)[i] == Compound(if i == 0 then start else EquityCurve(r, start)[i - 1], r[i])
  {
    var g := Growth(FillZero(r));
    var c := CumProd(g);
    CumProdStep(g, i);
    assert g[i] == 1.0 + OrZero(r[i]);
    if i == 0 {
      assert c[0] == g[0];
      assert c[0] * start == start * g[0];
      assert Compound(start, r[0]) == start * g[0];
    } else {
      assert c[i] == c[i - 1] * g[i];
      assert c[i] * start == (c[i - 1] * g[i]) * start;
      assert (c[i - 1] * g[i]) * start == (c[i - 1] * start) * g[i];
      assert Compound(c[i - 1] * start, r[i]) == (c[i - 1] * start) * g[i];
    }
  }

  /** A missing return and a zero return give the same equity curve. */
  lemma EquityMissingIsZero(r: seq<Option<real>>, start: real, i: nat)
    requires i < |r| && r[i].None?
    ensures EquityCurve(r, start) == EquityCurve(r[i := Some(0.0)], start)
  {
    assert FillZero(r) == FillZero(r[i := Some(0.0)]);
  }


  /** From a positive start, returns above -100% keep the equity positive. */
  lemma {:induction false} EquityPositive(r: seq<Option<real>>, start: real, i: nat)
    requires AboveMinusOne(r) && start > 0.0 && i < |r|
    ensures EquityCurve(r, start)[i] > 0.0
  {
    var eq := EquityCurve(r, start);
    EquityStep(r, start, i);
    var prev := if i == 0 then start else eq[i - 1];
    if i > 0 {
      EquityPositive(r, start, i - 1);
    }
    var g := 1.0 + OrZero(r[i]);
    assert g > 0.0;
    PositiveProduct(prev, g);
  }

  /** With no losing day the equity never falls. */
  lemma {:induction false} EquityNonDecreasing(r: seq<Option<real>>, start: real, j: nat, i: nat)
    requires forall k :: 0 <= k < |r| && r[k].Some? ==> r[k].value >= 0.0
    requires start > 0.0 && j <= i < |r|
    ensures EquityCurve(r, start)[j] <= EquityCurve(r, start)[i]
  {
    if j < i {
      var eq := EquityCurve(r, start);
      EquityNonDecreasing(r, start, j, i - 1);
      EquityStep(r, start, i);
      EquityPositive(r, start, i - 1);
      var prev := eq[i - 1];
      var g := 1.0 + OrZero(r[i]);
      assert g >= 1.0;
      assert prev * g >= prev * 1.0;
    }
  }

  /** `annualized_return`: undefined exactly when no return is defined. */
  function AnnualizedReturn(r: seq<Option<real>>, pow: (real, real) -> real): (a: Option<real>)
    ensures a.None? <==> forall i :: 0 <= i < |r| ==> r[i].None?
  {
    var d := Defined(r);
    DefinedEmptyIff(r);
    if |d| == 0 then None
    else
      var curve := Prod(Growth(d));
      var years := (|d| as real) / (TradingDays as real);
      Some(pow(curve, 1.0 / years) - 1.0)
  }

  /**
   * The annualised sample deviation of the defined returns, `std(ddof=1) * sqrt(252)`;
   * it needs at least two defined returns.
   */
  function SharpeDeviation(r: seq<Option<real>>, sqrt: real -> real): real
    requires |Defined(r)| >= 2
  {
    var d := Defined(r);
    var variance := Sum(SquaredDeviations(d, Mean(d))) / ((|d| - 1) as real);
    sqrt(variance) * sqrt(TradingDays as real)
  }

  /**
   * `sharpe_ratio`: the annualised mean over the annualised deviation, undefined below
   * two defined returns or at zero deviation.
   */
  function SharpeRatio(r: seq<Option<real>>, sqrt: real -> real): (s: Option<real>)
    ensures |Defined(r)| < 2 ==> s.None?
    ensures |Defined(r)| >= 2 ==> (s.None? <==> SharpeDeviation(r, sqrt) == 0.0)
    ensures s.Some? ==> s.value * SharpeDeviation(r, sqrt) == Mean(Defined(r)) * (TradingDays as real)
  {
    var d := Defined(r);
    if |d| < 2 then None
    else
      var mu := Mean(d) * (TradingDays as real);
      var sd := SharpeDeviation(r, sqrt);
      if sd != 0.0 then Some(mu / sd) else None
  }

  /** When every defined return is the same, the deviation is zero and the ratio undefined. */
  lemma SharpeFlat(r: seq<Option<real>>, sqrt: real -> real, c: real)
    requires forall i :: 0 <= i < |r| && r[i].Some? ==> r[i].value == c
    requires sqrt(0.0) == 0.0
    ensures SharpeRatio(r, sqrt).None?
  {
    var d := Defined(r);
    if |d| >= 2 {
      forall j | 0 <= j < |d| ensures d[j] == c {
        DefinedMembers(r, d[j]);
      }
      ConstantHasNoSpread(d, c);
      var variance := Sum(SquaredDeviations(d, Mean(d))) / ((|d| - 1) as real);
      assert variance == 0.0;
      assert sqrt(variance) * sqrt(TradingDays as real) == 0.0;
      assert SharpeDeviation(r, sqrt) == 0.0;
    }
  }

  /** `max_drawdown`: the smallest defined drawdown, undefined if there is none. */
  function MaxDrawdown(r: seq<Option<real>>): (m: Option<real>)
    ensures m.None? <==> forall i :: 0 <= i < |r| ==> Drawdown(EquityCurve(r, 1.0))[i].None?
    ensures m.Some? ==> exists i :: 0 <= i < |r| && Drawdown(EquityCurve(r, 1.0))[i] == m
    ensures m.Some? ==> forall i :: 0 <= i < |r| && Drawdown(EquityCurve(r, 1.0))[i].Some? ==> m.value <= Drawdown(EquityCurve(r, 1.0))[i].value
  {
    var dd := Drawdown(EquityCurve(r, 1.0));
    var d := Defined(dd);
    DefinedEmptyIff(dd);
    if |d| == 0 then None
    else
      MinOfIsMin(d);
      assert forall j :: 0 <= j < |dd| && dd[j].Some? ==> dd[j].value in d by {
        forall j | 0 <= j < |dd| && dd[j].Some? ensures dd[j].value in d {
          DefinedMembers(dd, dd[j].value);
        }
      }
      DefinedMembers(dd, MinOf(d));
      Some(MinOf(d))
  }

  /** With every return above -100%, the maximum drawdown is defined and not above zero. */
  lemma MaxDrawdownNonPositive(r: seq<Option<real>>)
    requires AboveMinusOne(r) && |r| > 0
    ensures MaxDrawdown(r).Some? && MaxDrawdown(r).value <= 0.0
  {
    var eq := EquityCurve(r, 1.0);
    EquityPositive(r, 1.0, 0);
    var i :| 0 <= i < |r| && Drawdown(eq)[i] == MaxDrawdown(r);
    EquityPositive(r, 1.0, i);
  }

  /** With no losing day, the equity is always at its peak and the maximum drawdown is zero. */
  lemma MaxDrawdownNoLosses(r: seq<Option<real>>)
    requires forall k :: 0 <= k < |r| && r[k].Some? ==> r[k].value >= 0.0
    requires |r| > 0
    ensures MaxDrawdown(r) == Some(0.0)
  {
    var eq := EquityCurve(r, 1.0);
    var peak := RunningMax(eq);
    var dd := Drawdown(eq);
    RunningMaxProperties(eq);
    forall i | 0 <= i < |r| ensures dd[i] == Some(0.0) {
      var j :| 0 <= j <= i && eq[j] == peak[i];
      EquityNonDecreasing(r, 1.0, j, i);
      EquityPositive(r, 1.0, i);
    }
    EquityPositive(r, 1.0, 0);
  }

  /** `r > 0`: a winning day. */
  function IsWin(x: real): bool
  {
    x > 0.0
  }

  /** The number of days whose return is defined and positive. */
  function Wins(r: seq<Option<real>>): nat
  {
    if |r| == 0 then 0
    else (if r[0].Some? && r[0].value > 0.0 then 1 else 0) + Wins(r[1..])
  }

  /** The positive values left by dropna are exactly the winning days. */
  lemma {:induction false} WinsCount(r: seq<Option<real>>)
    ensures Wins(r) == |Sorting.Filter(Defined(r), IsWin)|
  {
    if |r| > 0 {
      WinsCount(r[1..]);
      var d := Defined(r);
      if r[0].Some? {
        assert d[0] == r[0].value && d[1..] == Defined(r[1..]);
      } else {
        assert d == Defined(r[1..]);
      }
    }
  }

  /**
   * `win_rate`: the number of winning days over the number of defined returns;
   * undefined when none is defined.
   */
  function WinRate(r: seq<Option<real>>): (w: Option<real>)
    ensures w.None? <==> forall i :: 0 <= i < |r| ==> r[i].None?
    ensures w.Some? ==> |Defined(r)| > 0 && w.value == (Wins(r) as real) / (|Defined(r)| as real)
    ensures w.Some? ==> 0.0 <= w.value <= 1.0
  {
    var d := Defined(r);
    DefinedEmptyIff(r);
    if |d| == 0 then None
    else
      var wins := Sorting.Filter(d, IsWin);
      assert |wins| <= |d|;
      WinsCount(r);
      FractionInUnit(|wins|, |d|);
      Some((|wins| as real) / (|d| as real))
  }

  lemma FractionInUnit(k: nat, n: nat)
    requires 0 < n && k <= n
    ensures 0.0 <= (k as real) / (n as real) <= 1.0
  {
    if k > 0 {
      DivAtMostOne(k as real, n as real);
    }
  }

  /** If every defined return is positive and one exists, the win rate is 1. */
  lemma WinRateAllWins(r: seq<Option<real>>)
    requires forall i :: 0 <= i < |r| && r[i].Some? ==> r[i].value > 0.0
    requires exists i :: 0 <= i < |r| && r[i].Some?
    ensures WinRate(r) == Some(1.0)
  {
    var d := Defined(r);
    forall j | 0 <= j < |d| ensures d[j] > 0.0 {
      DefinedMembers(r, d[j]);
    }
    Sorting.FilterKeepsAll(d, IsWin);
    DefinedEmptyIff(r);
    assert |Sorting.Filter(d, IsWin)| == |d| > 0;
    var n := |d| as real;
    assert WinRate(r) == Some(n / n);
    SelfDivision(n);
  }

  lemma SelfDivision(n: real)
    requires n != 0.0
    ensures n / n == 1.0
  {
  }

  /** Four daily gains of 1%: no drawdown and every day a win. */
  lemma FourSmallGains()
    ensures MaxDrawdown([Some(0.01), Some(0.01), Some(0.01), Some(0.01)]) == Some(0.0)
    ensures WinRate([Some(0.01), Some(0.01), Some(0.01), Some(0.01)]) == Some(1.0)
  {
    var r := [Some(0.01), Some(0.01), Some(0.01), Some(0.01)];
    assert forall i :: 0 <= i < |r| ==> r[i] == Some(0.01);
    assert forall i :: 0 <= i < |r| && r[i].Some? ==> r[i].value >= 0.0;
    MaxDrawdownNoLosses(r);
    assert forall i :: 0 <= i < |r| && r[i].Some? ==> r[i].value > 0.0;
    assert r[0].Some?;
    WinRateAllWins(r);
  }

  /** `summarize`: exactly the four metrics, under their names. */
  function Summarize(r: seq<Option<real>>, sqrt: real -> real, pow: (real, real) -> real): (m: map<string, Option<real>>)
    ensures m.Keys == {"annualized_return", "sharpe", "max_drawdown", "win_rate"}
    ensures m["annualized_return"] == AnnualizedReturn(r, pow) && m["sharpe"] == SharpeRatio(r, sqrt)
    ensures m["max_drawdown"] == MaxDrawdown(r) && m["win_rate"] == WinRate(r)
  {
    map["annualized_return" := AnnualizedReturn(r, pow),
        "sharpe" := SharpeRatio(r, sqrt),
        "max_drawdown" := MaxDrawdown(r),
        "win_rate" := WinRate(r)]
  }
}
