/**
 * `compute_equity_and_drawdown` of src/plots.py: drop the missing returns, sort them by
 * date, compound them into an equity curve and measure it against its running peak.
 * A return is a `(date, value)` pair, the date a day number.
 */
module Plots {
  import opened Series
  import Sorting

  /** The four series of the `EquityDrawdown` record, with the dates that index them. */
  datatype EquityDrawdown = EquityDrawdown(
    dates: seq<int>,
    equity: seq<real>,
    drawdown: seq<real>,
    drawdownPct: seq<Option<real>>,
    runningMax: seq<real>)

  /** The `ValueError` raised when no return is left after dropping the missing ones. */
  datatype Outcome = Computed(curves: EquityDrawdown) | EmptyAfterDropna

  function DateKey(p: (int, real)): real
  {
    p.0 as real
  }

  function IsDefined(p: (int, Option<real>)): bool
  {
    p.1.Some?
  }

  /** The number of defined returns: the length of `returns.dropna()`. */
  function DefinedCount(daily: seq<(int, Option<real>)>): nat
  {
    |Sorting.Filter(daily, IsDefined)|
  }

  /**
   * `returns.dropna().sort_index()`: the defined returns in ascending date order, each
   * kept exactly as often as it occurs (duplicate dates included).
   */
  function SortedDefined(daily: seq<(int, Option<real>)>): (s: seq<(int, real)>)
    ensures Sorting.SortedBy(s, DateKey)
    ensures forall d, v :: multiset(s)[(d, v)] == multiset(daily)[(d, Some(v))]
    ensures |s| == DefinedCount(daily)
    ensures forall d, v :: (d, v) in s <==> (d, Some(v)) in daily
    ensures |s| == 0 <==> forall k :: 0 <= k < |daily| ==> daily[k].1.None?
  {
    var kept := Sorting.Filter(daily, IsDefined);
    var s := Sorting.SortBy(Unwrap(kept), DateKey);
    KeptMembers(daily, s);
    KeptLength(daily, s);
    KeptEmptyIff(daily);
    s
  }

  /** The defined values of returns that are all defined, with their dates. */
  function Unwrap(kept: seq<(int, Option<real>)>): (u: seq<(int, real)>)
    requires forall i :: 0 <= i < |kept| ==> kept[i].1.Some?
    ensures |u| == |kept|
    ensures forall i :: 0 <= i < |kept| ==> u[i] == (kept[i].0, kept[i].1.value)
  {
    if |kept| == 0 then [] else [(kept[0].0, kept[0].1.value)] + Unwrap(kept[1..])
  }

  /** Unwrapping keeps the multiplicity of every return. */
  lemma {:induction false} UnwrapCount(kept: seq<(int, Option<real>)>, d: int, v: real)
    requires forall i :: 0 <= i < |kept| ==> kept[i].1.Some?
    ensures multiset(Unwrap(kept))[(d, v)] == multiset(kept)[(d, Some(v))]
  {
    if |kept| > 0 {
      assert kept == [kept[0]] + kept[1..];
      UnwrapCount(kept[1..], d, v);
    }
  }

  /** Any arrangement of the unwrapped defined returns holds each one as often as it occurs. */
  lemma KeptCount(daily: seq<(int, Option<real>)>, s: seq<(int, real)>, d: int, v: real)
    requires multiset(s) == multiset(Unwrap(Sorting.Filter(daily, IsDefined)))
    ensures multiset(s)[(d, v)] == multiset(daily)[(d, Some(v))]
  {
    UnwrapCount(Sorting.Filter(daily, IsDefined), d, v);
    Sorting.FilterCount(daily, IsDefined, (d, Some(v)));
  }

  /** One date-value pair is kept exactly when it is a defined return. */
  lemma KeptMember(daily: seq<(int, Option<real>)>, s: seq<(int, real)>, d: int, v: real)
    requires multiset(s) == multiset(Unwrap(Sorting.Filter(daily, IsDefined)))
    ensures (d, v) in s <==> (d, Some(v)) in daily
  {
    KeptCount(daily, s, d, v);
    assert (d, v) in s <==> (d, v) in multiset(s);
    assert (d, Some(v)) in daily <==> (d, Some(v)) in multiset(daily);
  }

  /** An arrangement of the unwrapped defined returns has one entry per defined return. */
  lemma KeptLength(daily: seq<(int, Option<real>)>, s: seq<(int, real)>)
    requires multiset(s) == multiset(Unwrap(Sorting.Filter(daily, IsDefined)))
    ensures |s| == DefinedCount(daily)
  {
    var u := Unwrap(Sorting.Filter(daily, IsDefined));
    assert |s| == |multiset(s)|;
    assert |multiset(u)| == |u|;
  }

  /** Nothing is kept exactly when every return is missing. */
  lemma KeptEmptyIff(daily: seq<(int, Option<real>)>)
    ensures DefinedCount(daily) == 0 <==> forall k :: 0 <= k < |daily| ==> daily[k].1.None?
  {
    Sorting.FilterEmptyIff(daily, IsDefined);
    assert forall k :: 0 <= k < |daily| ==> (IsDefined(daily[k]) <==> daily[k].1.Some?);
  }

  /** The kept returns are the defined ones, each as often as it occurs. */
  lemma KeptMembers(daily: seq<(int, Option<real>)>, s: seq<(int, real)>)
    requires multiset(s) == multiset(Unwrap(Sorting.Filter(daily, IsDefined)))
    ensures forall d, v :: multiset(s)[(d, v)] == multiset(daily)[(d, Some(v))]
    ensures forall d, v :: (d, v) in s <==> (d, Some(v)) in daily
  {
    forall d, v ensures multiset(s)[(d, v)] == multiset(daily)[(d, Some(v))] {
      KeptCount(daily, s, d, v);
    }
    forall d, v ensures (d, v) in s <==> (d, Some(v)) in daily {
      KeptMember(daily, s, d, v);
    }
  }

  /** Two defined returns on the same date are both kept. */
  lemma DuplicateDatesKept()
    ensures var o := ComputeEquityAndDrawdown([(1, Some(0.1)), (1, Some(0.1))], 1.0);
            o.Computed? && |o.curves.equity| == 2
  {
    var daily := [(1, Some(0.1)), (1, Some(0.1))];
    assert Sorting.Filter(daily, IsDefined) == daily by {
      Sorting.FilterKeepsAll(daily, IsDefined);
    }
  }

  function Dates(s: seq<(int, real)>): (d: seq<int>)
    ensures |d| == |s| && forall i :: 0 <= i < |s| ==> d[i] == s[i].0
  {
    seq(|s|, i requires 0 <= i < |s| => s[i].0)
  }

  function Values(s: seq<(int, real)>): (v: seq<real>)
    ensures |v| == |s| && forall i :: 0 <= i < |s| ==> v[i] == s[i].1
  {
    seq(|s|, i requires 0 <= i < |s| => s[i].1)
  }

  /** `start_equity * (1 + r).cumprod()` over returns already cleaned. */
  function Compounded(rets: seq<real>, startEquity: real): (eq: seq<real>)
    ensures |eq| == |rets|
  {
    var c := CumProd(Growth(rets));
    seq(|rets|, i requires 0 <= i < |rets| => startEquity * c[i])
  }

  /** The row-by-row form of the compounding. */
  lemma CompoundedStep(rets: seq<real>, startEquity: real, i: nat)
    requires i < |rets|
    ensures Compounded(rets, startEquity)[i] ==
      Grow(if i == 0 then startEquity else Compounded(rets, startEquity)[i - 1], rets[i])
  {
    var g := Growth(rets);
    var c := CumProd(g);
    CumProdStep(g, i);
    assert g[i] == 1.0 + rets[i];
    if i > 0 {
      assert c[i] == c[i - 1] * g[i];
      assert startEquity * c[i] == startEquity * (c[i - 1] * g[i]);
      assert startEquity * (c[i - 1] * g[i]) == (startEquity * c[i - 1]) * g[i];
      assert Grow(startEquity * c[i - 1], rets[i]) == (startEquity * c[i - 1]) * g[i];
    } else {
      assert c[0] == g[0];
      assert Grow(startEquity, rets[0]) == startEquity * g[0];
    }
  }

  /** `compute_equity_and_drawdown`. */
  function ComputeEquityAndDrawdown(daily: seq<(int, Option<real>)>, startEquity: real): (o: Outcome)
    ensures o.EmptyAfterDropna? <==> forall k :: 0 <= k < |daily| ==> daily[k].1.None?
    ensures o.Computed? ==>
      var s := SortedDefined(daily);
      && o.curves.dates == Dates(s)
      && |o.curves.equity| == |o.curves.drawdown| == |o.curves.drawdownPct| == |o.curves.runningMax| == |s|
      && |s| == DefinedCount(daily)
  {
    var s := SortedDefined(daily);
    if |s| == 0 then EmptyAfterDropna
    else
      var equity := Compounded(Values(s), startEquity);
      var runningMax := RunningMax(equity);
      Computed(EquityDrawdown(
        Dates(s),
        equity,
        seq(|s|, i requires 0 <= i < |s| => equity[i] - runningMax[i]),
        Drawdown(equity),
        runningMax))
  }

  /**
   * The curves follow the date-sorted defined daily: the equity starts at
   * `start * (1 + r0)` and grows by `1 + r[i]` each row.
   */
  lemma EquityFollowsSortedReturns(daily: seq<(int, Option<real>)>, startEquity: real, i: nat)
    requires ComputeEquityAndDrawdown(daily, startEquity).Computed?
    requires i < |ComputeEquityAndDrawdown(daily, startEquity).curves.equity|
    ensures var c := ComputeEquityAndDrawdown(daily, startEquity).curves;
            var s := SortedDefined(daily);
            c.equity[i] == Grow(if i == 0 then startEquity else c.equity[i - 1], s[i].1)
  {
    var s := SortedDefined(daily);
    CompoundedStep(Values(s), startEquity, i);
  }

  /**
   * The running maximum is never below the equity and never decreases; the drawdown is
   * never positive and is zero exactly at the running-maximum points; the relative
   * drawdown is not above zero wherever the equity is positive.
   */
  lemma DrawdownProperties(daily: seq<(int, Option<real>)>, startEquity: real)
    requires ComputeEquityAndDrawdown(daily, startEquity).Computed?
    ensures var c := ComputeEquityAndDrawdown(daily, startEquity).curves;
            && (forall i :: 0 <= i < |c.equity| ==> c.equity[i] <= c.runningMax[i])
            && (forall i, k :: 0 <= i <= k < |c.equity| ==> c.runningMax[i] <= c.runningMax[k])
            && (forall i :: 0 <= i < |c.equity| ==> c.drawdown[i] <= 0.0)
            && (forall i :: 0 <= i < |c.equity| ==> (c.drawdown[i] == 0.0 <==> c.equity[i] == c.runningMax[i]))
            && (forall i :: 0 <= i < |c.equity| && 0.0 < c.equity[i] ==>
                  c.drawdownPct[i].Some? && c.drawdownPct[i].value <= 0.0)
  {
    var c := ComputeEquityAndDrawdown(daily, startEquity).curves;
    RunningMaxProperties(c.equity);
  }

  /** From a positive start, returns above -100% keep the compounded equity positive. */
  lemma {:induction false} CompoundedPositive(rets: seq<real>, startEquity: real, i: nat)
    requires forall k :: 0 <= k < |rets| ==> rets[k] > -1.0
    requires startEquity > 0.0 && i < |rets|
    ensures Compounded(rets, startEquity)[i] > 0.0
  {
    CompoundedStep(rets, startEquity, i);
    var prev := if i == 0 then startEquity else Compounded(rets, startEquity)[i - 1];
    if i > 0 {
      CompoundedPositive(rets, startEquity, i - 1);
    }
    var g := 1.0 + rets[i];
    PositiveProduct(prev, g);
    assert Grow(prev, rets[i]) == prev * g;
  }

  /** With a positive start and every return above -100%, the equity stays positive. */
  lemma EquityPositive(daily: seq<(int, Option<real>)>, startEquity: real, i: nat)
    requires forall k :: 0 <= k < |daily| && daily[k].1.Some? ==> daily[k].1.value > -1.0
    requires startEquity > 0.0
    requires ComputeEquityAndDrawdown(daily, startEquity).Computed?
    requires i < |ComputeEquityAndDrawdown(daily, startEquity).curves.equity|
    ensures ComputeEquityAndDrawdown(daily, startEquity).curves.equity[i] > 0.0
  {
    var s := SortedDefined(daily);
    var rets := Values(s);
    forall k | 0 <= k < |rets| ensures rets[k] > -1.0 {
      assert s[k] in s;
      assert (s[k].0, Some(s[k].1)) in daily;
    }
    CompoundedPositive(rets, startEquity, i);
  }
}
