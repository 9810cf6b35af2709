/**
 * Series primitives shared by every component: a date-aligned numeric series is a
 * `seq<Option<real>>`, where `None` plays the part of pandas' NaN. The functions here
 * are the pandas operations the pipeline is built from (dropna, fillna, sum, mean,
 * cumprod, cummax) and the NaN-propagating arithmetic of element-wise expressions.
 */
module Series {

  datatype Option<+T> = None | Some(value: T)

  /** Absolute value. */
  function Abs(x: real): (r: real)
    ensures r >= 0.0
    ensures r == x || r == -x
  {
    if x < 0.0 then -x else x
  }

  lemma AbsMul(a: real, b: real)
    ensures Abs(a * b) == Abs(a) * Abs(b)
  {
    if a < 0.0 && b < 0.0 {
      assert a * b == (-a) * (-b);
    } else if a < 0.0 {
      assert a * b == -((-a) * b);
    } else if b < 0.0 {
      assert a * b == -(a * (-b));
    }
  }

  // ---------------------------------------------------------------------------
  // NaN-propagating element arithmetic: the result is undefined when an operand is.

  function Plus(a: Option<real>, b: Option<real>): (r: Option<real>)
    ensures r.Some? <==> a.Some? && b.Some?
    ensures r.Some? ==> r.value == a.value + b.value
  {
    if a.Some? && b.Some? then Some(a.value + b.value) else None
  }

  function Minus(a: Option<real>, b: Option<real>): (r: Option<real>)
    ensures r.Some? <==> a.Some? && b.Some?
    ensures r.Some? ==> r.value == a.value - b.value
  {
    if a.Some? && b.Some? then Some(a.value - b.value) else None
  }

  function Times(a: Option<real>, b: Option<real>): (r: Option<real>)
    ensures r.Some? <==> a.Some? && b.Some?
    ensures r.Some? ==> r.value == a.value * b.value
  {
    if a.Some? && b.Some? then Some(a.value * b.value) else None
  }

  /** `Times` on two present values, with the product stated on the plain values. */
  lemma TimesSome(a: Option<real>, b: Option<real>, x: real, y: real)
    requires a == Some(x) && b == Some(y)
    ensures Times(a, b) == Some(x * y)
  {
    assert Times(a, b).value == a.value * b.value;
    assert a.value * b.value == x * y;
  }

  function AbsOf(a: Option<real>): (r: Option<real>)
    ensures r.Some? <==> a.Some?
    ensures r.Some? ==> r.value == Abs(a.value)
  {
    if a.Some? then Some(Abs(a.value)) else None
  }

  // ---------------------------------------------------------------------------
  // dropna and fillna

  /** `dropna()`: the defined values, in their original order. */
  function Defined(s: seq<Option<real>>): (d: seq<real>)
    ensures |d| <= |s|
  {
    if |s| == 0 then []
    else (if s[0].Some? then [s[0].value] else []) + Defined(s[1..])
  }

  lemma {:induction false} DefinedAppend(a: seq<Option<real>>, b: seq<Option<real>>)
    ensures Defined(a + b) == Defined(a) + Defined(b)
  {
    if |a| == 0 {
      assert a + b == b;
    } else {
      var head := if a[0].Some? then [a[0].value] else [];
      assert (a + b)[0] == a[0];
      assert (a + b)[1..] == a[1..] + b;
      assert Defined(a + b) == head + Defined(a[1..] + b);
      DefinedAppend(a[1..], b);
      assert Defined(a) == head + Defined(a[1..]);
    }
  }

  /** There is nothing left after dropna exactly when every entry is undefined. */
  lemma {:induction false} DefinedEmptyIff(s: seq<Option<real>>)
    ensures |Defined(s)| == 0 <==> forall i :: 0 <= i < |s| ==> s[i].None?
  {
    if |s| > 0 {
      DefinedEmptyIff(s[1..]);
      assert forall i :: 1 <= i < |s| ==> s[i] == s[1..][i - 1];
    }
  }

  /** The values kept by dropna are exactly the defined entries. */
  lemma {:induction false} DefinedMembers(s: seq<Option<real>>, v: real)
    ensures v in Defined(s) <==> exists i :: 0 <= i < |s| && s[i] == Some(v)
  {
    if |s| > 0 {
      DefinedMembers(s[1..], v);
      if v in Defined(s[1..]) {
        var i :| 0 <= i < |s[1..]| && s[1..][i] == Some(v);
        assert s[i + 1] == Some(v);
      }
      if exists i :: 0 <= i < |s| && s[i] == Some(v) {
        var i :| 0 <= i < |s| && s[i] == Some(v);
        if i > 0 {
          assert s[1..][i - 1] == Some(v);
        }
      }
    }
  }

  /** On a series with no NaN, dropna keeps every entry. */
  lemma {:induction false} DefinedAllSome(s: seq<Option<real>>)
    requires forall i :: 0 <= i < |s| ==> s[i].Some?
    ensures |Defined(s)| == |s|
    ensures forall i :: 0 <= i < |s| ==> Defined(s)[i] == s[i].value
  {
    if |s| > 0 {
      DefinedAllSome(s[1..]);
    }
  }

  /** A value with NaN read as zero. */
  function OrZero(a: Option<real>): real
  {
    if a.Some? then a.value else 0.0
  }

  /** Every price present is positive. */
  predicate PositiveSeries(s: seq<Option<real>>)
  {
    forall i :: 0 <= i < |s| && s[i].Some? ==> s[i].value > 0.0
  }

  /** One day of compounding: `v * (1 + ret)`. */
  function Grow(v: real, ret: real): real
  {
    v * (1.0 + ret)
  }

  /** One day of compounding, a missing return counting as 0. */
  function Compound(v: real, ret: Option<real>): real
  {
    Grow(v, OrZero(ret))
  }

  lemma PositiveProduct(a: real, b: real)
    requires a > 0.0 && b > 0.0
    ensures a * b > 0.0
  {
  }

  /** `fillna(0.0)`. */
  function FillZero(s: seq<Option<real>>): (r: seq<real>)
    ensures |r| == |s|
    ensures forall i :: 0 <= i < |s| ==> r[i] == (if s[i].Some? then s[i].value else 0.0)
  {
    seq(|s|, i requires 0 <= i < |s| => OrZero(s[i]))
  }

  /** The growth factors `1 + r` of a sequence of simple returns. */
  function Growth(r: seq<real>): (g: seq<real>)
    ensures |g| == |r|
    ensures forall i :: 0 <= i < |r| ==> g[i] == 1.0 + r[i]
  {
    seq(|r|, i requires 0 <= i < |r| => 1.0 + r[i])
  }

  // ---------------------------------------------------------------------------
  // Sums and means

  function Sum(s: seq<real>): real
  {
    if |s| == 0 then 0.0 else s[0] + Sum(s[1..])
  }

  function Mean(s: seq<real>): real
    requires |s| > 0
  {
    Sum(s) / (|s| as real)
  }

  lemma {:induction false} SumConstant(s: seq<real>, c: real)
    requires forall i :: 0 <= i < |s| ==> s[i] == c
    ensures Sum(s) == (|s| as real) * c
  {
    if |s| > 0 {
      SumConstant(s[1..], c);
    }
  }

  /** The mean of values that all equal `c` is `c`. */
  lemma MeanConstant(s: seq<real>, c: real)
    requires |s| > 0
    requires forall i :: 0 <= i < |s| ==> s[i] == c
    ensures Mean(s) == c
  {
    SumConstant(s, c);
  }

  lemma {:induction false} SumBounds(s: seq<real>, lo: real, hi: real)
    requires forall i :: 0 <= i < |s| ==> lo <= s[i] <= hi
    ensures (|s| as real) * lo <= Sum(s) <= (|s| as real) * hi
  {
    if |s| > 0 {
      SumBounds(s[1..], lo, hi);
    }
  }

  /** A mean lies between any lower and upper bound of its values. */
  lemma MeanBounds(s: seq<real>, lo: real, hi: real)
    requires |s| > 0
    requires forall i :: 0 <= i < |s| ==> lo <= s[i] <= hi
    ensures lo <= Mean(s) <= hi
  {
    SumBounds(s, lo, hi);
    var n := |s| as real;
    assert n * lo <= Sum(s) <= n * hi;
    assert Mean(s) * n == Sum(s);
  }

  /** The squared deviations of `s` from `m`. */
  function SquaredDeviations(s: seq<real>, m: real): (d: seq<real>)
    ensures |d| == |s|
    ensures forall i :: 0 <= i < |s| ==> d[i] == (s[i] - m) * (s[i] - m)
  {
    seq(|s|, i requires 0 <= i < |s| => (s[i] - m) * (s[i] - m))
  }

  /** Values that all equal one constant have no spread around their mean. */
  lemma ConstantHasNoSpread(s: seq<real>, c: real)
    requires |s| > 0
    requires forall i :: 0 <= i < |s| ==> s[i] == c
    ensures Mean(s) == c
    ensures Sum(SquaredDeviations(s, Mean(s))) == 0.0
  {
    MeanConstant(s, c);
    var d := SquaredDeviations(s, c);
    forall i | 0 <= i < |s| ensures d[i] == 0.0 {
      assert s[i] - c == 0.0;
    }
    SumConstant(d, 0.0);
  }

  // ---------------------------------------------------------------------------
  // cumprod and cummax

  /** The product of all values. */
  function Prod(s: seq<real>): real
  {
    if |s| == 0 then 1.0 else Prod(s[..|s| - 1]) * s[|s| - 1]
  }

  /** `cumprod()`: entry `i` is the product of the first `i + 1` values. */
  function CumProd(s: seq<real>): (c: seq<real>)
    ensures |c| == |s|
  {
    seq(|s|, i requires 0 <= i < |s| => Prod(s[..i + 1]))
  }

  /** Each cumulative product is the previous one times the new factor. */
  lemma CumProdStep(s: seq<real>, i: nat)
    requires i < |s|
    ensures CumProd(s)[i] == (if i == 0 then 1.0 else CumProd(s)[i - 1]) * s[i]
  {
    assert s[..i + 1][..i] == s[..i];
    if i == 0 {
      assert Prod(s[..0]) == 1.0;
    }
  }

  lemma {:induction false} ProdPositive(s: seq<real>)
    requires forall i :: 0 <= i < |s| ==> s[i] > 0.0
    ensures Prod(s) > 0.0
  {
    if |s| > 0 {
      ProdPositive(s[..|s| - 1]);
    }
  }

  lemma {:induction false} ProdAtLeastOne(s: seq<real>)
    requires forall i :: 0 <= i < |s| ==> s[i] >= 1.0
    ensures Prod(s) >= 1.0
  {
    if |s| > 0 {
      ProdAtLeastOne(s[..|s| - 1]);
      var p := Prod(s[..|s| - 1]);
      assert p * s[|s| - 1] >= p * 1.0;
    }
  }

  /** The largest value of a non-empty sequence. */
  function MaxOf(s: seq<real>): real
    requires |s| > 0
  {
    if |s| == 1 then s[0]
    else var m := MaxOf(s[..|s| - 1]); if s[|s| - 1] > m then s[|s| - 1] else m
  }

  lemma {:induction false} MaxOfIsMax(s: seq<real>)
    requires |s| > 0
    ensures forall j :: 0 <= j < |s| ==> s[j] <= MaxOf(s)
    ensures exists j :: 0 <= j < |s| && s[j] == MaxOf(s)
  {
    if |s| > 1 {
      var p := s[..|s| - 1];
      MaxOfIsMax(p);
      assert forall j :: 0 <= j < |p| ==> p[j] == s[j];
      var j :| 0 <= j < |p| && p[j] == MaxOf(p);
      if s[|s| - 1] <= MaxOf(p) {
        assert s[j] == MaxOf(s);
      }
    } else {
      assert s[0] == MaxOf(s);
    }
  }

  /** The smallest value of a non-empty sequence. */
  function MinOf(s: seq<real>): real
    requires |s| > 0
  {
    if |s| == 1 then s[0]
    else var m := MinOf(s[..|s| - 1]); if s[|s| - 1] < m then s[|s| - 1] else m
  }

  lemma {:induction false} MinOfIsMin(s: seq<real>)
    requires |s| > 0
    ensures forall j :: 0 <= j < |s| ==> MinOf(s) <= s[j]
    ensures exists j :: 0 <= j < |s| && s[j] == MinOf(s)
  {
    if |s| > 1 {
      var p := s[..|s| - 1];
      MinOfIsMin(p);
      assert forall j :: 0 <= j < |p| ==> p[j] == s[j];
      var j :| 0 <= j < |p| && p[j] == MinOf(p);
      if s[|s| - 1] >= MinOf(p) {
        assert s[j] == MinOf(s);
      }
    } else {
      assert s[0] == MinOf(s);
    }
  }

  /** `cummax()`: entry `i` is the largest of the first `i + 1` values. */
  function RunningMax(s: seq<real>): (m: seq<real>)
    ensures |m| == |s|
  {
    seq(|s|, i requires 0 <= i < |s| => MaxOf(s[..i + 1]))
  }

  /**
   * The running peak is at least the value at every index, at least every earlier
   * value, equals one of the values seen so far, and never decreases.
   */
  lemma RunningMaxProperties(s: seq<real>)
    ensures forall i :: 0 <= i < |s| ==> s[i] <= RunningMax(s)[i]
    ensures forall i, j :: 0 <= j <= i < |s| ==> s[j] <= RunningMax(s)[i]
    ensures forall i :: 0 <= i < |s| ==> exists j :: 0 <= j <= i && s[j] == RunningMax(s)[i]
    ensures forall i, k :: 0 <= i <= k < |s| ==> RunningMax(s)[i] <= RunningMax(s)[k]
  {
    forall i | 0 <= i < |s| ensures forall j :: 0 <= j <= i ==> s[j] <= RunningMax(s)[i] {
      RunningMaxAt(s, i);
    }
    forall i | 0 <= i < |s| ensures exists j :: 0 <= j <= i && s[j] == RunningMax(s)[i] {
      RunningMaxAt(s, i);
      var j :| 0 <= j <= i && s[j] == RunningMax(s)[i];
      assert 0 <= j <= i && s[j] == RunningMax(s)[i];
    }
    forall i, k | 0 <= i <= k < |s| ensures RunningMax(s)[i] <= RunningMax(s)[k] {
      RunningMaxAt(s, i);
      RunningMaxAt(s, k);
      var j :| 0 <= j <= i && s[j] == RunningMax(s)[i];
    }
  }

  /** The running peak at one index bounds, and is one of, the values seen so far. */
  lemma RunningMaxAt(s: seq<real>, i: nat)
    requires i < |s|
    ensures forall j :: 0 <= j <= i ==> s[j] <= RunningMax(s)[i]
    ensures exists j :: 0 <= j <= i && s[j] == RunningMax(s)[i]
  {
    var p := s[..i + 1];
    assert RunningMax(s)[i] == MaxOf(p);
    MaxOfIsMax(p);
    assert forall j :: 0 <= j <= i ==> p[j] == s[j];
    var j :| 0 <= j < i + 1 && p[j] == MaxOf(p);
    assert s[j] == RunningMax(s)[i];
  }

  lemma DivAtMostOne(a: real, b: real)
    requires 0.0 < a <= b
    ensures a / b <= 1.0
  {
    assert (a / b) * b == a;
  }

  /** Relative drawdown `equity / peak - 1`; undefined where the peak is zero. */
  function RelativeDrawdown(equity: real, peak: real): (d: Option<real>)
    ensures d.Some? <==> peak != 0.0
    ensures d.Some? && 0.0 < equity <= peak ==> d.value <= 0.0
    ensures d.Some? ==> (d.value == 0.0 <==> equity == peak)
  {
    if peak == 0.0 then None
    else
      assert 0.0 < equity <= peak ==> equity / peak <= 1.0 by {
        if 0.0 < equity <= peak {
          DivAtMostOne(equity, peak);
        }
      }
      assert (equity / peak) * peak == equity;
      Some(equity / peak - 1.0)
  }

  /**
   * The drawdown series `equity / equity.cummax() - 1`: never above zero where the
   * equity is positive, and zero exactly where the equity stands at its running peak.
   */
  function Drawdown(eq: seq<real>): (dd: seq<Option<real>>)
    ensures |dd| == |eq|
    ensures forall i :: 0 <= i < |eq| ==> (dd[i].Some? <==> RunningMax(eq)[i] != 0.0)
    ensures forall i :: 0 <= i < |eq| && 0.0 < eq[i] ==> dd[i].Some? && dd[i].value <= 0.0
    ensures forall i :: 0 <= i < |eq| && dd[i].Some? ==> (dd[i].value == 0.0 <==> eq[i] == RunningMax(eq)[i])
  {
    var peak := RunningMax(eq);
    RunningMaxProperties(eq);
    seq(|eq|, i requires 0 <= i < |eq| => RelativeDrawdown(eq[i], peak[i]))
  }
}
