/**
 * Trading signals (src/pairs_trading/signals.py): the spread, the rolling z-score and
 * the hysteresis state machine that turns z-scores into spread positions
 * (+1 long the spread, -1 short, 0 flat).
 */
module Signals {
  import opened Series
  import Stats

  // ---------------------------------------------------------------------------
  // compute_spread

  /** `y - beta * x` on pre-aligned series; undefined wherever any input is. */
  function ComputeSpread(y: seq<Option<real>>, x: seq<Option<real>>, beta: seq<Option<real>>): (s: seq<Option<real>>)
    requires |y| == |x| == |beta|
    ensures |s| == |y|
    ensures forall i :: 0 <= i < |s| ==> (s[i].Some? <==> y[i].Some? && x[i].Some? && beta[i].Some?)
    ensures forall i :: 0 <= i < |s| && s[i].Some? ==> s[i].value == y[i].value - beta[i].value * x[i].value
  {
    seq(|y|, i requires 0 <= i < |y| => Minus(y[i], Times(beta[i], x[i])))
  }

  /**
   * With the rolling hedge ratio, the spread is defined on a date exactly when both
   * prices are there and at least `lookback` joint rows have been seen by then.
   */
  lemma SpreadOfRollingBeta(y: seq<Option<real>>, x: seq<Option<real>>, lookback: nat, ols: (seq<real>, seq<real>) -> real, t: nat)
    requires |y| == |x| && t < |y| && lookback >= 1
    ensures ComputeSpread(y, x, Stats.BetaSeries(y, x, lookback, ols))[t].Some? <==>
      y[t].Some? && x[t].Some? && |Stats.Joint(y[..t], x[..t])| >= lookback - 1
  {
    if y[t].Some? && x[t].Some? {
      Stats.BetaAlongJoint(y, x, lookback, ols, t);
    }
  }

  // ---------------------------------------------------------------------------
  // rolling_zscore

  /**
   * `(s - s.rolling(L).mean()) / s.rolling(L).std(ddof=0)` at row `i`. A window with a
   * missing value, or one not yet full, is undefined; so is a window whose deviation
   * is zero, where the numerator is zero too and the float division gives NaN.
   * `sqrt` is the square root, left abstract.
   */
  function ZScoreAt(s: seq<Option<real>>, lookback: nat, sqrt: real -> real, i: nat): Option<real>
    requires lookback >= 1 && i < |s|
  {
    if i + 1 < lookback then None
    else
      var w := s[i + 1 - lookback .. i + 1];
      if exists k :: 0 <= k < |w| && w[k].None? then None
      else
        var d := Defined(w);
        var m := Mean(d);
        var sd := sqrt(Mean(SquaredDeviations(d, m)));
        if sd == 0.0 then None else Some((s[i].value - m) / sd)
  }

  function RollingZScore(s: seq<Option<real>>, lookback: nat, sqrt: real -> real): (z: seq<Option<real>>)
    requires lookback >= 1
    ensures |z| == |s|
  {
    seq(|s|, i requires 0 <= i < |s| => ZScoreAt(s, lookback, sqrt, i))
  }

  /** The first `lookback - 1` z-scores are undefined, whatever the series. */
  lemma ZScoreWarmUp(s: seq<Option<real>>, lookback: nat, sqrt: real -> real, i: nat)
    requires lookback >= 1 && i < |s| && i < lookback - 1
    ensures RollingZScore(s, lookback, sqrt)[i].None?
  {
  }

  /** The z-score at `i` depends only on rows i-lookback+1..i. */
  lemma ZScoreWindowOnly(s: seq<Option<real>>, s': seq<Option<real>>, lookback: nat, sqrt: real -> real, i: nat)
    requires lookback >= 1 && lookback - 1 <= i < |s| && i < |s'|
    requires s[i + 1 - lookback .. i + 1] == s'[i + 1 - lookback .. i + 1]
    ensures RollingZScore(s, lookback, sqrt)[i] == RollingZScore(s', lookback, sqrt)[i]
  {
    assert s[i] == s[i + 1 - lookback .. i + 1][lookback - 1];
    assert s'[i] == s'[i + 1 - lookback .. i + 1][lookback - 1];
  }

  /** A flat full window has zero deviation, so its z-score is undefined. */
  lemma ZScoreFlatWindow(s: seq<Option<real>>, lookback: nat, sqrt: real -> real, i: nat, c: real)
    requires lookback >= 1 && lookback - 1 <= i < |s|
    requires forall k :: i + 1 - lookback <= k <= i ==> s[k] == Some(c)
    requires sqrt(0.0) == 0.0
    ensures RollingZScore(s, lookback, sqrt)[i].None?
  {
    var w := s[i + 1 - lookback .. i + 1];
    forall k | 0 <= k < |w| ensures w[k] == Some(c) {
      assert w[k] == s[i + 1 - lookback + k];
    }
    DefinedAllSome(w);
    var d := Defined(w);
    assert forall k :: 0 <= k < |d| ==> d[k] == c;
    ConstantHasNoSpread(d, c);
    var sq := SquaredDeviations(d, Mean(d));
    assert Mean(sq) == 0.0;
    assert sqrt(Mean(sq)) == 0.0;
    assert RollingZScore(s, lookback, sqrt)[i] == ZScoreAt(s, lookback, sqrt, i);
  }

  // ---------------------------------------------------------------------------
  // positions_from_z

  /**
   * One step of the state machine. An undefined z leaves the state alone. From flat,
   * `z <= -entry` goes long and otherwise `z >= entry` goes short; from a position,
   * `|z| <= exit` goes flat and anything else holds.
   */
  function Transition(state: real, z: Option<real>, entryZ: real, exitZ: real): real
  {
    if z.None? then state
    else if state == 0.0 then
      if z.value <= -entryZ then 1.0 else if z.value >= entryZ then -1.0 else 0.0
    else if Abs(z.value) <= exitZ then 0.0
    else state
  }

  /** The state after reading `z[..n]`, starting flat. */
  function StateAfter(z: seq<Option<real>>, n: nat, entryZ: real, exitZ: real): real
    requires n <= |z|
  {
    if n == 0 then 0.0 else Transition(StateAfter(z, n - 1, entryZ, exitZ), z[n - 1], entryZ, exitZ)
  }

  /** What `positions_from_z` emits: undefined where z is, else the state after that row. */
  function Positions(z: seq<Option<real>>, entryZ: real, exitZ: real): (pos: seq<Option<real>>)
    ensures |pos| == |z|
  {
    seq(|z|, i requires 0 <= i < |z| => if z[i].None? then None else Some(StateAfter(z, i + 1, entryZ, exitZ)))
  }

  /** `positions_from_z`: one pass over z, carrying the state. */
  method PositionsFromZ(z: seq<Option<real>>, entryZ: real, exitZ: real) returns (pos: seq<Option<real>>)
    ensures pos == Positions(z, entryZ, exitZ)
  {
    var enterLong := seq(|z|, k requires 0 <= k < |z| => z[k].Some? && z[k].value <= -entryZ);
    var enterShort := seq(|z|, k requires 0 <= k < |z| => z[k].Some? && z[k].value >= entryZ);
    var exitFlat := seq(|z|, k requires 0 <= k < |z| => z[k].Some? && Abs(z[k].value) <= exitZ);
    var out := new Option<real>[|z|](_ => Some(0.0));
    var state := 0.0;
    for i := 0 to |z|
      invariant state == StateAfter(z, i, entryZ, exitZ)
      invariant forall k :: 0 <= k < i ==> out[k] == Positions(z, entryZ, exitZ)[k]
    {
      if z[i].None? {
        out[i] := None;
        continue;
      }
      if state == 0.0 {
        if enterLong[i] {
          state := 1.0;
        } else if enterShort[i] {
          state := -1.0;
        }
      } else {
        if exitFlat[i] {
          state := 0.0;
        }
      }
      out[i] := Some(state);
    }
    pos := out[..];
  }

  /** The state is always flat, long or short. */
  lemma {:induction false} StateInRange(z: seq<Option<real>>, n: nat, entryZ: real, exitZ: real)
    requires n <= |z|
    ensures StateAfter(z, n, entryZ, exitZ) in {-1.0, 0.0, 1.0}
  {
    if n > 0 {
      StateInRange(z, n - 1, entryZ, exitZ);
    }
  }

  /** Every defined position is -1, 0 or +1. */
  lemma PositionValues(z: seq<Option<real>>, entryZ: real, exitZ: real, i: nat)
    requires i < |z| && Positions(z, entryZ, exitZ)[i].Some?
    ensures Positions(z, entryZ, exitZ)[i].value in {-1.0, 0.0, 1.0}
  {
    StateInRange(z, i + 1, entryZ, exitZ);
  }

  /** An undefined z gives an undefined position and carries the state over unchanged. */
  lemma UndefinedHoldsState(z: seq<Option<real>>, entryZ: real, exitZ: real, i: nat)
    requires i < |z| && z[i].None?
    ensures Positions(z, entryZ, exitZ)[i].None?
    ensures StateAfter(z, i + 1, entryZ, exitZ) == StateAfter(z, i, entryZ, exitZ)
  {
  }

  /** From flat, the long test takes priority, then the short test; otherwise stay flat. */
  lemma FromFlat(z: seq<Option<real>>, entryZ: real, exitZ: real, i: nat)
    requires i < |z| && z[i].Some? && StateAfter(z, i, entryZ, exitZ) == 0.0
    ensures Positions(z, entryZ, exitZ)[i] == Some(1.0) <==> z[i].value <= -entryZ
    ensures Positions(z, entryZ, exitZ)[i] == Some(-1.0) <==> -entryZ < z[i].value && entryZ <= z[i].value
    ensures Positions(z, entryZ, exitZ)[i] == Some(0.0) <==> -entryZ < z[i].value < entryZ
  {
  }

  /** From a position, go flat exactly when |z| <= exit; otherwise hold. */
  lemma FromPosition(z: seq<Option<real>>, entryZ: real, exitZ: real, i: nat)
    requires i < |z| && z[i].Some? && StateAfter(z, i, entryZ, exitZ) != 0.0
    ensures Positions(z, entryZ, exitZ)[i] == Some(0.0) <==> Abs(z[i].value) <= exitZ
    ensures Abs(z[i].value) > exitZ ==> Positions(z, entryZ, exitZ)[i] == Some(StateAfter(z, i, entryZ, exitZ))
  {
  }

  /** A run of undefined z-scores leaves the state as it was. */
  lemma {:induction false} StateAcrossGap(z: seq<Option<real>>, entryZ: real, exitZ: real, i: nat, j: nat)
    requires i <= j <= |z|
    requires forall k :: i <= k < j ==> z[k].None?
    ensures StateAfter(z, j, entryZ, exitZ) == StateAfter(z, i, entryZ, exitZ)
  {
    if j > i {
      StateAcrossGap(z, entryZ, exitZ, i, j - 1);
    }
  }

  /**
   * Two consecutive defined positions are never +1 then -1, or -1 then +1: a reversal
   * always passes through flat.
   */
  lemma NoDirectReversal(z: seq<Option<real>>, entryZ: real, exitZ: real, i: nat, j: nat)
    requires i < j < |z| && z[i].Some? && z[j].Some?
    requires forall k :: i < k < j ==> z[k].None?
    ensures var pos := Positions(z, entryZ, exitZ);
            !(pos[i] == Some(1.0) && pos[j] == Some(-1.0)) && !(pos[i] == Some(-1.0) && pos[j] == Some(1.0))
  {
    StateAcrossGap(z, entryZ, exitZ, i + 1, j);
  }

  /** The first defined position starts from flat: it is nonzero only past an entry threshold. */
  lemma FirstPosition(z: seq<Option<real>>, entryZ: real, exitZ: real, i: nat)
    requires i < |z| && z[i].Some?
    requires forall k :: 0 <= k < i ==> z[k].None?
    ensures Positions(z, entryZ, exitZ)[i] != Some(0.0) ==> z[i].value <= -entryZ || z[i].value >= entryZ
  {
    StateAcrossGap(z, entryZ, exitZ, 0, i);
  }
}
