/**
 * The pair backtest and the portfolio average (src/pairs_trading/backtest.py).
 * All series are pre-aligned on one date index; `None` is NaN. Prices must be
 * positive, which keeps every simple return finite.
 */
module Backtest {
  import opened Series

  /**
   * `pct_change()` on one day: the simple return from the previous price `prev` to
   * today's `cur`, undefined unless both prices are there.
   */
  function SimpleReturn(prev: Option<real>, cur: Option<real>): (r: Option<real>)
    requires prev.Some? ==> prev.value > 0.0
    requires cur.Some? ==> cur.value > 0.0
    ensures r.Some? <==> prev.Some? && cur.Some?
    ensures r.Some? ==> cur.value == prev.value * (1.0 + r.value) && r.value > -1.0
  {
    if prev.None? || cur.None? then None
    else
      var q := cur.value / prev.value;
      assert q > 0.0 && q * prev.value == cur.value;
      Some(q - 1.0)
  }

  // ---------------------------------------------------------------------------
  // Leg weights

  /** The two legs' dollar weights on one day. */
  datatype Legs = Legs(wy: Option<real>, wx: Option<real>)

  /**
   * Raw weights `wy = p`, `wx = -p * b`, rescaled by `lev / (|wy| + |wx|)`; a zero
   * gross exposure is replaced by NaN, so a flat day has undefined weights.
   */
  function ScaledWeights(p: Option<real>, b: Option<real>, lev: real): (l: Legs)
    ensures l.wy.None? <==> l.wx.None?
  {
    var wy := p;
    var wx := if p.Some? && b.Some? then Some(-p.value * b.value) else None;
    var gross := Plus(AbsOf(wy), AbsOf(wx));
    var scale := if gross.None? || gross.value == 0.0 then None else Some(lev / gross.value);
    Legs(Times(wy, scale), Times(wx, scale))
  }

  /** |a| + |a * b| is zero exactly when a is. */
  lemma ExposureZeroIff(a: real, b: real)
    ensures Abs(a) + Abs(-a * b) == 0.0 <==> a == 0.0
  {
    assert Abs(-a * b) >= 0.0;
  }

  /** Weights are undefined exactly when the position or the hedge ratio is, or the pair is flat. */
  lemma WeightsUndefinedIff(p: Option<real>, b: Option<real>, lev: real)
    ensures ScaledWeights(p, b, lev).wy.None? <==> p.None? || b.None? || p.value == 0.0
    ensures ScaledWeights(p, b, lev).wx.None? <==> ScaledWeights(p, b, lev).wy.None?
  {
    if p.Some? && b.Some? {
      ExposureZeroIff(p.value, b.value);
    }
  }

  lemma ScaleAbs(a: real, s: real)
    requires s >= 0.0
    ensures Abs(a * s) == Abs(a) * s
  {
    AbsMul(a, s);
  }

  lemma CancelDivision(g: real, lev: real)
    requires g != 0.0
    ensures g * (lev / g) == lev
  {
  }

  lemma SplitLegs(a: real, q: real, lev: real)
    requires Abs(a) + Abs(q) > 0.0 && lev >= 0.0
    ensures Abs(a * (lev / (Abs(a) + Abs(q)))) + Abs(q * (lev / (Abs(a) + Abs(q)))) == lev
  {
    var g := Abs(a) + Abs(q);
    var s := lev / g;
    assert s >= 0.0;
    ScaleAbs(a, s);
    ScaleAbs(q, s);
    assert Abs(a) * s + Abs(q) * s == g * s;
    CancelDivision(g, lev);
  }

  /** On a day with a position the two legs' absolute weights add up to the target leverage. */
  lemma GrossLeverageTarget(p: Option<real>, b: Option<real>, lev: real)
    requires lev >= 0.0
    requires ScaledWeights(p, b, lev).wy.Some?
    ensures ScaledWeights(p, b, lev).wx.Some?
    ensures Abs(ScaledWeights(p, b, lev).wy.value) + Abs(ScaledWeights(p, b, lev).wx.value) == lev
  {
    WeightsUndefinedIff(p, b, lev);
    ExposureZeroIff(p.value, b.value);
    SplitLegs(p.value, -p.value * b.value, lev);
  }

  lemma ScaledHedge(a: real, b: real, lev: real)
    requires Abs(a) + Abs(-a * b) != 0.0
    ensures (-a * b) * (lev / (Abs(a) + Abs(-a * b))) == -b * (a * (lev / (Abs(a) + Abs(-a * b))))
  {
  }

  lemma ScaledSigns(a: real, b: real, lev: real)
    requires Abs(a) + Abs(-a * b) > 0.0 && lev > 0.0
    ensures a * (lev / (Abs(a) + Abs(-a * b))) > 0.0 <==> a > 0.0
    ensures a * (lev / (Abs(a) + Abs(-a * b))) < 0.0 <==> a < 0.0
  {
    var s := lev / (Abs(a) + Abs(-a * b));
    assert s > 0.0;
    if a > 0.0 {
      assert a * s > 0.0;
    } else if a < 0.0 {
      assert (-a) * s > 0.0;
    } else {
      assert a * s == 0.0;
    }
  }

  /**
   * On a day with a position, the legs keep the hedge ratio (`wx = -beta * wy`) and,
   * for positive leverage, the Y leg has the sign of the position: long the spread is
   * long Y, short the spread is short Y.
   */
  lemma WeightsShape(p: Option<real>, b: Option<real>, lev: real)
    requires lev > 0.0
    requires ScaledWeights(p, b, lev).wy.Some?
    ensures ScaledWeights(p, b, lev).wx.Some?
    ensures ScaledWeights(p, b, lev).wx.value == -b.value * ScaledWeights(p, b, lev).wy.value
    ensures ScaledWeights(p, b, lev).wy.value > 0.0 <==> p.value > 0.0
    ensures ScaledWeights(p, b, lev).wy.value < 0.0 <==> p.value < 0.0
  {
    WeightsUndefinedIff(p, b, lev);
    ExposureZeroIff(p.value, b.value);
    ScaledHedge(p.value, b.value, lev);
    ScaledSigns(p.value, b.value, lev);
  }

  // ---------------------------------------------------------------------------
  // pair_returns_from_spread_position

  datatype BacktestResult = BacktestResult(
    retGross: seq<Option<real>>,
    retNet: seq<Option<real>>,
    wy: seq<Option<real>>,
    wx: seq<Option<real>>,
    turnover: seq<Option<real>>,
    cost: seq<Option<real>>)

  predicate SameLength(py: seq<Option<real>>, px: seq<Option<real>>, beta: seq<Option<real>>, pos: seq<Option<real>>)
  {
    |py| == |px| == |beta| == |pos|
  }

  function YWeights(beta: seq<Option<real>>, pos: seq<Option<real>>, lev: real): (w: seq<Option<real>>)
    requires |beta| == |pos|
    ensures |w| == |pos|
    ensures forall i :: 0 <= i < |w| ==> w[i] == ScaledWeights(pos[i], beta[i], lev).wy
  {
    seq(|pos|, i requires 0 <= i < |pos| => ScaledWeights(pos[i], beta[i], lev).wy)
  }

  function XWeights(beta: seq<Option<real>>, pos: seq<Option<real>>, lev: real): (w: seq<Option<real>>)
    requires |beta| == |pos|
    ensures |w| == |pos|
    ensures forall i :: 0 <= i < |w| ==> w[i] == ScaledWeights(pos[i], beta[i], lev).wx
  {
    seq(|pos|, i requires 0 <= i < |pos| => ScaledWeights(pos[i], beta[i], lev).wx)
  }

  /** `wy.shift(1) * rety + wx.shift(1) * retx` on day `i`: yesterday's weights, today's returns. */
  function GrossAt(py: seq<Option<real>>, px: seq<Option<real>>, beta: seq<Option<real>>, pos: seq<Option<real>>, lev: real, i: nat): Option<real>
    requires SameLength(py, px, beta, pos) && PositiveSeries(py) && PositiveSeries(px) && i < |py|
  {
    if i == 0 then None
    else
      var w := ScaledWeights(pos[i - 1], beta[i - 1], lev);
      Plus(Times(w.wy, SimpleReturn(py[i - 1], py[i])), Times(w.wx, SimpleReturn(px[i - 1], px[i])))
  }

  /** `(wy - wy.shift(1)).abs() + (wx - wx.shift(1)).abs()` on day `i`. */
  function TurnoverAt(beta: seq<Option<real>>, pos: seq<Option<real>>, lev: real, i: nat): Option<real>
    requires |beta| == |pos| && i < |pos|
  {
    if i == 0 then None
    else
      var today := ScaledWeights(pos[i], beta[i], lev);
      var before := ScaledWeights(pos[i - 1], beta[i - 1], lev);
      Plus(AbsOf(Minus(today.wy, before.wy)), AbsOf(Minus(today.wx, before.wx)))
  }

  /** The total cost rate per unit of turnover: `(fee + slippage) / 10000`. */
  function CostRate(feeBps: real, slipBps: real): real
  {
    (feeBps + slipBps) / 10000.0
  }

  /** The result frame from gross returns and turnover, with `cost = turnover * rate` and `net = gross - cost`. */
  function Assemble(gross: seq<Option<real>>, wy: seq<Option<real>>, wx: seq<Option<real>>, turnover: seq<Option<real>>, rate: real): (r: BacktestResult)
    requires |gross| == |wy| == |wx| == |turnover|
    ensures r.retGross == gross && r.wy == wy && r.wx == wx && r.turnover == turnover
    ensures |r.retNet| == |r.cost| == |gross|
    ensures forall i :: 0 <= i < |gross| ==> r.cost[i] == Times(turnover[i], Some(rate))
    ensures forall i :: 0 <= i < |gross| ==> r.retNet[i] == Minus(gross[i], r.cost[i])
  {
    var cost := seq(|turnover|, i requires 0 <= i < |turnover| => Times(turnover[i], Some(rate)));
    var net := seq(|gross|, i requires 0 <= i < |gross| => Minus(gross[i], cost[i]));
    BacktestResult(gross, net, wy, wx, turnover, cost)
  }

  /** `pair_returns_from_spread_position`, as written. */
  function PairReturns(py: seq<Option<real>>, px: seq<Option<real>>, beta: seq<Option<real>>, pos: seq<Option<real>>,
                       feeBps: real, slipBps: real, lev: real): (r: BacktestResult)
    requires SameLength(py, px, beta, pos) && PositiveSeries(py) && PositiveSeries(px)
    ensures |r.retGross| == |r.retNet| == |r.wy| == |r.wx| == |r.turnover| == |r.cost| == |py|
    ensures forall i :: 0 <= i < |py| ==> r.retGross[i] == GrossAt(py, px, beta, pos, lev, i)
    ensures forall i :: 0 <= i < |py| ==> r.turnover[i] == TurnoverAt(beta, pos, lev, i)
    ensures forall i :: 0 <= i < |py| ==> r.cost[i] == Times(r.turnover[i], Some(CostRate(feeBps, slipBps)))
    ensures forall i :: 0 <= i < |py| ==> r.retNet[i] == Minus(r.retGross[i], r.cost[i])
  {
    var n := |py|;
    var gross := seq(n, i requires 0 <= i < n => GrossAt(py, px, beta, pos, lev, i));
    var turnover := seq(n, i requires 0 <= i < n => TurnoverAt(beta, pos, lev, i));
    Assemble(gross, YWeights(beta, pos, lev), XWeights(beta, pos, lev), turnover, CostRate(feeBps, slipBps))
  }

  /**
   * The return is realised with a one-day lag: nothing on the first day, and on day
   * `i` yesterday's weights times today's simple returns.
   */
  lemma GrossReturnLagged(py: seq<Option<real>>, px: seq<Option<real>>, beta: seq<Option<real>>, pos: seq<Option<real>>,
                          lev: real, i: nat)
    requires SameLength(py, px, beta, pos) && PositiveSeries(py) && PositiveSeries(px) && 0 < i < |py|
    ensures var w := ScaledWeights(pos[i - 1], beta[i - 1], lev);
            GrossAt(py, px, beta, pos, lev, i).Some? <==>
              w.wy.Some? && w.wx.Some? && py[i].Some? && py[i - 1].Some? && px[i].Some? && px[i - 1].Some?
    ensures var w := ScaledWeights(pos[i - 1], beta[i - 1], lev);
            GrossAt(py, px, beta, pos, lev, i).Some? ==>
              py[i].value == py[i - 1].value * (1.0 + SimpleReturn(py[i - 1], py[i]).value)
              && px[i].value == px[i - 1].value * (1.0 + SimpleReturn(px[i - 1], px[i]).value)
              && GrossAt(py, px, beta, pos, lev, i).value
                 == w.wy.value * SimpleReturn(py[i - 1], py[i]).value + w.wx.value * SimpleReturn(px[i - 1], px[i]).value
  {
  }

  /**
   * No lookahead: the gross return on day `i` is determined by positions and hedge
   * ratios before `i` and prices up to `i`; today's position and later data do not enter.
   */
  lemma GrossNoLookahead(py: seq<Option<real>>, px: seq<Option<real>>, beta: seq<Option<real>>, pos: seq<Option<real>>,
                         py': seq<Option<real>>, px': seq<Option<real>>, beta': seq<Option<real>>, pos': seq<Option<real>>,
                         lev: real, i: nat)
    requires SameLength(py, px, beta, pos) && PositiveSeries(py) && PositiveSeries(px)
    requires SameLength(py', px', beta', pos') && PositiveSeries(py') && PositiveSeries(px')
    requires i < |py| && i < |py'|
    requires py[..i + 1] == py'[..i + 1] && px[..i + 1] == px'[..i + 1]
    requires beta[..i] == beta'[..i] && pos[..i] == pos'[..i]
    ensures GrossAt(py, px, beta, pos, lev, i) == GrossAt(py', px', beta', pos', lev, i)
  {
    if i > 0 {
      assert py[i] == py[..i + 1][i] && py'[i] == py'[..i + 1][i];
      assert px[i] == px[..i + 1][i] && px'[i] == px'[..i + 1][i];
      assert py[i - 1] == py[..i + 1][i - 1] && py'[i - 1] == py'[..i + 1][i - 1];
      assert px[i - 1] == px[..i + 1][i - 1] && px'[i - 1] == px'[..i + 1][i - 1];
      assert beta[i - 1] == beta[..i][i - 1] && beta'[i - 1] == beta'[..i][i - 1];
      assert pos[i - 1] == pos[..i][i - 1] && pos'[i - 1] == pos'[..i][i - 1];
    }
  }

  lemma NonNegativeProduct(a: real, b: real)
    requires a >= 0.0 && b >= 0.0
    ensures a * b >= 0.0
  {
    if a > 0.0 && b > 0.0 {
      assert a * b > 0.0;
    }
  }

  /** Turnover is undefined on the first day and never negative. */
  lemma TurnoverNonNegative(beta: seq<Option<real>>, pos: seq<Option<real>>, lev: real, i: nat)
    requires |beta| == |pos| && i < |pos|
    ensures i == 0 ==> TurnoverAt(beta, pos, lev, i).None?
    ensures TurnoverAt(beta, pos, lev, i).Some? ==> TurnoverAt(beta, pos, lev, i).value >= 0.0
  {
  }

  /**
   * With non-negative fees and slippage the cost is never negative and the net return
   * never exceeds the gross; net is defined exactly where both gross and cost are.
   */
  lemma CostsNonNegative(py: seq<Option<real>>, px: seq<Option<real>>, beta: seq<Option<real>>, pos: seq<Option<real>>,
                         feeBps: real, slipBps: real, lev: real, i: nat)
    requires SameLength(py, px, beta, pos) && PositiveSeries(py) && PositiveSeries(px) && i < |py|
    requires feeBps + slipBps >= 0.0
    ensures var r := PairReturns(py, px, beta, pos, feeBps, slipBps, lev);
            && (r.cost[i].Some? ==> r.cost[i].value >= 0.0)
            && (r.retNet[i].Some? ==> r.retNet[i].value <= r.retGross[i].value)
  {
    var r := PairReturns(py, px, beta, pos, feeBps, slipBps, lev);
    if r.cost[i].Some? {
      TurnoverNonNegative(beta, pos, lev, i);
      NonNegativeProduct(r.turnover[i].value, CostRate(feeBps, slipBps));
    }
  }

  /** The example used below, in which the pair enters on day 1 and exits on day 3. */
  lemma ExampleWeights(beta: seq<Option<real>>, pos: seq<Option<real>>)
    requires beta == [Some(1.0), Some(1.0), Some(1.0), Some(1.0)]
    requires pos == [None, Some(1.0), Some(1.0), Some(0.0)]
    ensures YWeights(beta, pos, 1.0) == [None, Some(0.5), Some(0.5), None]
    ensures XWeights(beta, pos, 1.0) == [None, Some(-0.5), Some(-0.5), None]
  {
    assert ScaledWeights(pos[1], beta[1], 1.0) == Legs(Some(0.5), Some(-0.5));
    assert ScaledWeights(pos[2], beta[2], 1.0) == Legs(Some(0.5), Some(-0.5));
    assert ScaledWeights(pos[3], beta[3], 1.0) == Legs(None, None);
  }

  /**
   * As written, turnover compares today's weights with yesterday's, and a flat day has
   * undefined weights; so a day on which the pair enters or leaves a position has an
   * undefined turnover, no cost is charged, and the exit day's net return is undefined
   * even though its gross return is not. Example: py = 100, 101, 99, 100; px = 50 on
   * every day; beta = 1; positions undefined, +1, +1, 0; 1 bp fee; leverage 1.
   */
  lemma EntryAndExitNotCharged(py: seq<Option<real>>, px: seq<Option<real>>, beta: seq<Option<real>>, pos: seq<Option<real>>)
    requires py == [Some(100.0), Some(101.0), Some(99.0), Some(100.0)]
    requires px == [Some(50.0), Some(50.0), Some(50.0), Some(50.0)]
    requires beta == [Some(1.0), Some(1.0), Some(1.0), Some(1.0)]
    requires pos == [None, Some(1.0), Some(1.0), Some(0.0)]
    ensures SameLength(py, px, beta, pos) && PositiveSeries(py) && PositiveSeries(px)
    ensures var r := PairReturns(py, px, beta, pos, 1.0, 0.0, 1.0);
            && r.retGross[2] == Some(-1.0 / 101.0) && r.retNet[2] == Some(-1.0 / 101.0)
            && r.turnover[1].None? && r.cost[1].None?
            && r.retGross[3] == Some(1.0 / 198.0) && r.turnover[3].None? && r.retNet[3].None?
  {
    ExampleWeights(beta, pos);
    assert SimpleReturn(py[1], py[2]) == Some(99.0 / 101.0 - 1.0);
    assert SimpleReturn(py[2], py[3]) == Some(100.0 / 99.0 - 1.0);
    assert SimpleReturn(px[1], px[2]) == Some(0.0) && SimpleReturn(px[2], px[3]) == Some(0.0);
  }

  // ---------------------------------------------------------------------------
  // The corrected cost model

  /** Turnover with flat days counted as zero weight (`w.fillna(0.0)` before the difference). */
  function ChargedTurnoverAt(beta: seq<Option<real>>, pos: seq<Option<real>>, lev: real, i: nat): (t: Option<real>)
    requires |beta| == |pos| && i < |pos|
    ensures t.None? <==> i == 0
    ensures t.Some? ==> t.value >= 0.0
  {
    if i == 0 then None
    else
      var today := ScaledWeights(pos[i], beta[i], lev);
      var before := ScaledWeights(pos[i - 1], beta[i - 1], lev);
      Some(Abs(OrZero(today.wy) - OrZero(before.wy)) + Abs(OrZero(today.wx) - OrZero(before.wx)))
  }

  /** The backtest with entries and exits charged like any other change of weights. */
  function PairReturnsCharged(py: seq<Option<real>>, px: seq<Option<real>>, beta: seq<Option<real>>, pos: seq<Option<real>>,
                              feeBps: real, slipBps: real, lev: real): (r: BacktestResult)
    requires SameLength(py, px, beta, pos) && PositiveSeries(py) && PositiveSeries(px)
    ensures |r.retGross| == |r.retNet| == |r.wy| == |r.wx| == |r.turnover| == |r.cost| == |py|
    ensures forall i :: 0 <= i < |py| ==> r.retGross[i] == GrossAt(py, px, beta, pos, lev, i)
    ensures forall i :: 0 <= i < |py| ==> r.turnover[i] == ChargedTurnoverAt(beta, pos, lev, i)
    ensures forall i :: 0 <= i < |py| ==> r.cost[i] == Times(r.turnover[i], Some(CostRate(feeBps, slipBps)))
    ensures forall i :: 0 <= i < |py| ==> r.retNet[i] == Minus(r.retGross[i], r.cost[i])
  {
    var n := |py|;
    var gross := seq(n, i requires 0 <= i < n => GrossAt(py, px, beta, pos, lev, i));
    var turnover := seq(n, i requires 0 <= i < n => ChargedTurnoverAt(beta, pos, lev, i));
    Assemble(gross, YWeights(beta, pos, lev), XWeights(beta, pos, lev), turnover, CostRate(feeBps, slipBps))
  }

  /** Entering a position from flat, or leaving one to flat, turns over the full leverage. */
  lemma EntryTurnover(beta: seq<Option<real>>, pos: seq<Option<real>>, lev: real, i: nat)
    requires |beta| == |pos| && 1 <= i < |pos| && lev >= 0.0
    requires ScaledWeights(pos[i - 1], beta[i - 1], lev).wy.None? != ScaledWeights(pos[i], beta[i], lev).wy.None?
    ensures ChargedTurnoverAt(beta, pos, lev, i) == Some(lev)
  {
    var today := ScaledWeights(pos[i], beta[i], lev);
    var before := ScaledWeights(pos[i - 1], beta[i - 1], lev);
    WeightsUndefinedIff(pos[i], beta[i], lev);
    WeightsUndefinedIff(pos[i - 1], beta[i - 1], lev);
    if today.wy.Some? {
      GrossLeverageTarget(pos[i], beta[i], lev);
      assert Abs(-today.wy.value) == Abs(today.wy.value) && Abs(-today.wx.value) == Abs(today.wx.value);
    } else {
      GrossLeverageTarget(pos[i - 1], beta[i - 1], lev);
    }
  }

  /**
   * With entries and exits charged, the net return is defined on every day after the
   * first on which the gross return is, and the cost is never negative for
   * non-negative fees.
   */
  lemma ChargedNetDefined(py: seq<Option<real>>, px: seq<Option<real>>, beta: seq<Option<real>>, pos: seq<Option<real>>,
                          feeBps: real, slipBps: real, lev: real, i: nat)
    requires SameLength(py, px, beta, pos) && PositiveSeries(py) && PositiveSeries(px)
    requires 1 <= i < |py|
    ensures var r := PairReturnsCharged(py, px, beta, pos, feeBps, slipBps, lev);
            && (r.retNet[i].Some? <==> r.retGross[i].Some?)
            && (feeBps + slipBps >= 0.0 ==> r.cost[i].Some? && r.cost[i].value >= 0.0)
  {
    var r := PairReturnsCharged(py, px, beta, pos, feeBps, slipBps, lev);
    if feeBps + slipBps >= 0.0 {
      NonNegativeProduct(r.turnover[i].value, CostRate(feeBps, slipBps));
    }
  }

  /** The same example with entries and exits charged: the exit day now has a net return. */
  lemma ChargedExample(py: seq<Option<real>>, px: seq<Option<real>>, beta: seq<Option<real>>, pos: seq<Option<real>>)
    requires py == [Some(100.0), Some(101.0), Some(99.0), Some(100.0)]
    requires px == [Some(50.0), Some(50.0), Some(50.0), Some(50.0)]
    requires beta == [Some(1.0), Some(1.0), Some(1.0), Some(1.0)]
    requires pos == [None, Some(1.0), Some(1.0), Some(0.0)]
    ensures SameLength(py, px, beta, pos) && PositiveSeries(py) && PositiveSeries(px)
    ensures var r := PairReturnsCharged(py, px, beta, pos, 1.0, 0.0, 1.0);
            r.cost[1] == Some(0.0001) && r.retNet[3] == Some(1.0 / 198.0 - 0.0001)
  {
    ExampleWeights(beta, pos);
    assert SimpleReturn(py[2], py[3]) == Some(100.0 / 99.0 - 1.0);
    assert SimpleReturn(px[2], px[3]) == Some(0.0);
  }

  // ---------------------------------------------------------------------------
  // equal_weight_portfolio

  /** The values of every pair on date `t`. */
  function OnDate(rets: seq<seq<Option<real>>>, t: nat): (c: seq<Option<real>>)
    requires forall k :: 0 <= k < |rets| ==> t < |rets[k]|
    ensures |c| == |rets| && forall k :: 0 <= k < |rets| ==> c[k] == rets[k][t]
  {
    seq(|rets|, k requires 0 <= k < |rets| => rets[k][t])
  }

  /**
   * `DataFrame(returns_by_pair).mean(axis=1, skipna=True)` on series aligned to `n` dates.
   * An empty dict makes a frame with no rows, so its mean is an empty series.
   */
  function EqualWeightPortfolio(rets: seq<seq<Option<real>>>, n: nat): (port: seq<Option<real>>)
    requires forall k :: 0 <= k < |rets| ==> |rets[k]| == n
    ensures |port| == if |rets| == 0 then 0 else n
  {
    if |rets| == 0 then []
    else
      seq(n, t requires 0 <= t < n =>
        var d := Defined(OnDate(rets, t));
        if |d| == 0 then None else Some(Mean(d)))
  }

  /**
   * The portfolio return on a date is undefined exactly when no pair has a value; it
   * lies between the smallest and the largest pair value, and when all pair values
   * that day equal `v` it is `v`.
   */
  lemma PortfolioMean(rets: seq<seq<Option<real>>>, n: nat, t: nat, lo: real, hi: real)
    requires forall k :: 0 <= k < |rets| ==> |rets[k]| == n
    requires 0 < |rets| && t < n
    requires forall k :: 0 <= k < |rets| && rets[k][t].Some? ==> lo <= rets[k][t].value <= hi
    ensures var port := EqualWeightPortfolio(rets, n);
            && (port[t].None? <==> forall k :: 0 <= k < |rets| ==> rets[k][t].None?)
            && (port[t].Some? ==> lo <= port[t].value <= hi)
            && (port[t].Some? && lo == hi ==> port[t].value == lo)
  {
    var c := OnDate(rets, t);
    var d := Defined(c);
    DefinedEmptyIff(c);
    forall j | 0 <= j < |d| ensures lo <= d[j] <= hi {
      DefinedMembers(c, d[j]);
    }
    if |d| > 0 {
      MeanBounds(d, lo, hi);
    }
  }
}
