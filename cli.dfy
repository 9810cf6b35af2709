/**
 * The driver of src/pairs_trading/cli.py: `select_pairs`, which scores every pair of
 * surviving tickers for cointegration and keeps the best ones, and `run`, which
 * backtests each selected pair and combines them into an equal-weight portfolio.
 * The cointegration, ADF and OLS routines, the square root and the fractional power
 * are parameters; downloading, printing and argument parsing are not modelled.
 */
module Cli {
  import opened Series
  import Sorting
  import Data
  import Stats
  import Signals
  import Backtest
  import Metrics

  /** The strategy settings that `select_pairs` and `run` read. */
  datatype StrategyConfig = StrategyConfig(
    cointPValueMax: real,
    minOverlapDays: int,
    betaLookback: int,
    zLookback: int,
    entryZ: real,
    exitZ: real,
    feeBpsPerLeg: real,
    slippageBpsPerLeg: real,
    grossLeverage: real,
    maxPairs: int)

  /** The defaults of `StrategyConfig` in src/pairs_trading/config.py. */
  const DefaultConfig := StrategyConfig(0.05, 252, 252, 60, 2.0, 0.5, 1.0, 0.0, 1.0, 10)

  // ---------------------------------------------------------------------------
  // combinations(tickers, 2)

  /** `(a, b)` comes before `(c, d)` in lexicographic order. */
  predicate LexLess(p: (nat, nat), q: (nat, nat))
  {
    p.0 < q.0 || (p.0 == q.0 && p.1 < q.1)
  }

  /** The index pairs `(i, j)` with `start <= i < j < n`, in lexicographic order. */
  function CombinationsFrom(start: nat, n: nat): (c: seq<(nat, nat)>)
    decreases n - start
    ensures forall p :: p in c <==> start <= p.0 < p.1 < n
    ensures forall k, l :: 0 <= k < l < |c| ==> LexLess(c[k], c[l])
  {
    if start >= n then []
    else
      var block := Block(start, n);
      var rest := CombinationsFrom(start + 1, n);
      JoinBlocks(block, rest, start);
      block + rest
  }

  /** The pairs `(start, j)` for `start < j < n`, by ascending `j`. */
  function Block(start: nat, n: nat): (b: seq<(nat, nat)>)
    requires start < n
    ensures forall p :: p in b <==> p.0 == start && start < p.1 < n
    ensures forall k, l :: 0 <= k < l < |b| ==> LexLess(b[k], b[l])
  {
    var b := seq(n - 1 - start, k requires 0 <= k < n - 1 - start => (start, start + 1 + k));
    assert forall p: (nat, nat) :: p.0 == start && start < p.1 < n ==> b[p.1 - start - 1] == p;
    b
  }

  /** A block of pairs led by `start`, followed by pairs led by larger indices, stays in order. */
  lemma JoinBlocks(block: seq<(nat, nat)>, rest: seq<(nat, nat)>, start: nat)
    requires forall p :: p in block ==> p.0 == start
    requires forall p :: p in rest ==> p.0 > start
    requires forall k, l :: 0 <= k < l < |block| ==> LexLess(block[k], block[l])
    requires forall k, l :: 0 <= k < l < |rest| ==> LexLess(rest[k], rest[l])
    ensures forall k, l :: 0 <= k < l < |block + rest| ==> LexLess((block + rest)[k], (block + rest)[l])
  {
    var c := block + rest;
    forall k, l | 0 <= k < l < |c| ensures LexLess(c[k], c[l]) {
      if l < |block| {
        assert c[k] == block[k] && c[l] == block[l];
      } else if k < |block| {
        assert c[k] == block[k] && c[k] in block;
        assert c[l] == rest[l - |block|] && c[l] in rest;
      } else {
        assert c[k] == rest[k - |block|] && c[l] == rest[l - |block|];
      }
    }
  }

  /**
   * `list(combinations(range(n), 2))`: every unordered pair of column indices exactly
   * once, as `(i, j)` with `i < j`, in lexicographic order.
   */
  function Combinations(n: nat): (c: seq<(nat, nat)>)
    ensures forall p :: p in c <==> p.0 < p.1 < n
    ensures forall k, l :: 0 <= k < l < |c| ==> LexLess(c[k], c[l])
  {
    CombinationsFrom(0, n)
  }

  /** Lexicographic order lists no pair twice. */
  lemma CombinationsDistinct(n: nat)
    ensures forall k, l :: 0 <= k < l < |Combinations(n)| ==> Combinations(n)[k] != Combinations(n)[l]
  {
  }

  // ---------------------------------------------------------------------------
  // select_pairs

  /** A row `(A, B, coint_pvalue)`, with the column indices of A and B carried along. */
  datatype Candidate = Candidate(a: string, b: string, colA: nat, colB: nat, pvalue: Option<real>)

  /** A row that survived `dropna`. */
  datatype Selected = Selected(a: string, b: string, colA: nat, colB: nat, pvalue: real)

  /** The number of days on which both columns have a price (`(y.notna() & x.notna()).sum()`). */
  function Overlap(t: Data.PriceTable, i: nat, j: nat): (o: nat)
    requires Data.WellFormed(t) && i < |t.cols| && j < |t.cols|
    ensures o <= |t.dates|
  {
    |Stats.Joint(t.cols[i], t.cols[j])|
  }

  /** The pairs of `combos` that have enough overlap, each with its p-value, in order. */
  function CandidatesOf(t: Data.PriceTable, combos: seq<(nat, nat)>, minOverlap: int,
                        coint: (seq<real>, seq<real>) -> real): (rows: seq<Candidate>)
    requires Data.WellFormed(t)
    requires forall p :: p in combos ==> p.0 < |t.cols| && p.1 < |t.cols|
    ensures forall r :: r in rows <==>
      && (r.colA, r.colB) in combos
      && Overlap(t, r.colA, r.colB) >= minOverlap
      && r.a == t.tickers[r.colA] && r.b == t.tickers[r.colB]
      && r.pvalue == Stats.EngleGrangerPValue(t.cols[r.colA], t.cols[r.colB], coint)
  {
    if |combos| == 0 then []
    else
      var n := |combos| - 1;
      var before := CandidatesOf(t, combos[..n], minOverlap, coint);
      var i := combos[n].0;
      var j := combos[n].1;
      assert forall p :: p in combos <==> p in combos[..n] || p == combos[n] by {
        assert combos == combos[..n] + [combos[n]];
      }
      if Overlap(t, i, j) < minOverlap then before
      else before + [Candidate(t.tickers[i], t.tickers[j], i, j, Stats.EngleGrangerPValue(t.cols[i], t.cols[j], coint))]
  }

  /** Scoring one more combination appends its row when the overlap is enough. */
  lemma CandidatesStep(t: Data.PriceTable, combos: seq<(nat, nat)>, k: nat, minOverlap: int,
                       coint: (seq<real>, seq<real>) -> real)
    requires Data.WellFormed(t) && k < |combos|
    requires forall p :: p in combos ==> p.0 < |t.cols| && p.1 < |t.cols|
    ensures var i, j := combos[k].0, combos[k].1;
      CandidatesOf(t, combos[..k + 1], minOverlap, coint) ==
        CandidatesOf(t, combos[..k], minOverlap, coint) +
        (if Overlap(t, i, j) < minOverlap then []
         else [Candidate(t.tickers[i], t.tickers[j], i, j, Stats.EngleGrangerPValue(t.cols[i], t.cols[j], coint))])
  {
    assert combos[..k + 1][..k] == combos[..k];
  }

  /** `.dropna()`: the rows whose p-value is defined, in order. */
  function DropNa(rows: seq<Candidate>): (d: seq<Selected>)
    ensures |d| <= |rows|
    ensures forall s :: s in d <==> Candidate(s.a, s.b, s.colA, s.colB, Some(s.pvalue)) in rows
  {
    if |rows| == 0 then []
    else
      var r := rows[0];
      assert rows == [r] + rows[1..];
      (if r.pvalue.Some? then [Selected(r.a, r.b, r.colA, r.colB, r.pvalue.value)] else []) + DropNa(rows[1..])
  }

  function PValueKey(s: Selected): real
  {
    s.pvalue
  }

  /** The test `coint_pvalue <= max`. */
  function AtMost(max: real): Selected -> bool
  {
    (s: Selected) => s.pvalue <= max
  }

  /**
   * `head(n)`: the first `n` rows; a negative `n` drops the last `-n` rows instead,
   * as pandas does.
   */
  function Head<T>(s: seq<T>, n: int): (h: seq<T>)
    ensures n >= 0 ==> |h| == if n < |s| then n else |s|
    ensures n < 0 ==> |h| == if |s| + n > 0 then |s| + n else 0
    ensures h == s[..|h|]
  {
    if n >= 0 then (if n < |s| then s[..n] else s)
    else if |s| + n > 0 then s[..|s| + n] else []
  }

  /** The scored rows that pass `dropna`, sorted by p-value, at or below the threshold. */
  function Eligible(rows: seq<Candidate>, max: real): (e: seq<Selected>)
  {
    Sorting.Filter(Sorting.SortBy(DropNa(rows), PValueKey), AtMost(max))
  }

  /** What `select_pairs` returns. */
  function SelectPairsSpec(t: Data.PriceTable, cfg: StrategyConfig, coint: (seq<real>, seq<real>) -> real): (out: seq<Selected>)
    requires Data.WellFormed(t)
  {
    var rows := CandidatesOf(t, Combinations(|t.cols|), cfg.minOverlapDays, coint);
    Head(Eligible(rows, cfg.cointPValueMax), cfg.maxPairs)
  }

  /** `select_pairs`: one pass over the combinations, skipping those with too little overlap. */
  method SelectPairs(t: Data.PriceTable, cfg: StrategyConfig, coint: (seq<real>, seq<real>) -> real)
      returns (out: seq<Selected>)
    requires Data.WellFormed(t)
    ensures out == SelectPairsSpec(t, cfg, coint)
  {
    var combos := Combinations(|t.cols|);
    var rows: seq<Candidate> := [];
    for k := 0 to |combos|
      invariant rows == CandidatesOf(t, combos[..k], cfg.minOverlapDays, coint)
    {
      CandidatesStep(t, combos, k, cfg.minOverlapDays, coint);
      var a, b := combos[k].0, combos[k].1;
      if |Stats.Joint(t.cols[a], t.cols[b])| < cfg.minOverlapDays {
        continue;
      }
      var p := Stats.EngleGrangerPValue(t.cols[a], t.cols[b], coint);
      rows := rows + [Candidate(t.tickers[a], t.tickers[b], a, b, p)];
    }
    assert combos[..|combos|] == combos;
    out := Head(Eligible(rows, cfg.cointPValueMax), cfg.maxPairs);
  }

  /**
   * A row is eligible exactly when it names a pair of columns `i < j`, by their tickers,
   * whose overlap is at least `min_overlap_days` and whose p-value is defined and at most
   * the threshold.
   */
  lemma EligibleIff(t: Data.PriceTable, cfg: StrategyConfig, coint: (seq<real>, seq<real>) -> real, s: Selected)
    requires Data.WellFormed(t)
    ensures var rows := CandidatesOf(t, Combinations(|t.cols|), cfg.minOverlapDays, coint);
      s in Eligible(rows, cfg.cointPValueMax) <==>
        && s.colA < s.colB < |t.cols|
        && s.a == t.tickers[s.colA] && s.b == t.tickers[s.colB]
        && Overlap(t, s.colA, s.colB) >= cfg.minOverlapDays
        && Stats.EngleGrangerPValue(t.cols[s.colA], t.cols[s.colB], coint) == Some(s.pvalue)
        && s.pvalue <= cfg.cointPValueMax
  {
    var combos := Combinations(|t.cols|);
    var rows := CandidatesOf(t, combos, cfg.minOverlapDays, coint);
    var d := DropNa(rows);
    var sorted := Sorting.SortBy(d, PValueKey);
    Sorting.FilterMembers(sorted, AtMost(cfg.cointPValueMax), s);
    assert s in sorted <==> s in d by {
      assert s in sorted <==> s in multiset(sorted);
      assert s in d <==> s in multiset(d);
    }
    var c := Candidate(s.a, s.b, s.colA, s.colB, Some(s.pvalue));
    assert s in d <==> c in rows;
    assert (s.colA, s.colB) in combos <==> s.colA < s.colB < |t.cols|;
    assert AtMost(cfg.cointPValueMax)(s) <==> s.pvalue <= cfg.cointPValueMax;
  }

  /** The selection is sorted by ascending p-value and no p-value exceeds the threshold. */
  lemma SelectionSortedAndBelowThreshold(t: Data.PriceTable, cfg: StrategyConfig, coint: (seq<real>, seq<real>) -> real)
    requires Data.WellFormed(t)
    ensures var out := SelectPairsSpec(t, cfg, coint);
      && (forall k, l :: 0 <= k < l < |out| ==> out[k].pvalue <= out[l].pvalue)
      && (forall k :: 0 <= k < |out| ==> out[k].pvalue <= cfg.cointPValueMax)
  {
    var rows := CandidatesOf(t, Combinations(|t.cols|), cfg.minOverlapDays, coint);
    var sorted := Sorting.SortBy(DropNa(rows), PValueKey);
    Sorting.FilterSorted(sorted, AtMost(cfg.cointPValueMax), PValueKey);
    var e := Eligible(rows, cfg.cointPValueMax);
    var out := SelectPairsSpec(t, cfg, coint);
    assert out == e[..|out|];
    forall k, l | 0 <= k < l < |out| ensures out[k].pvalue <= out[l].pvalue {
      assert out[k] == e[k] && out[l] == e[l];
      assert PValueKey(e[k]) <= PValueKey(e[l]);
    }
    forall k | 0 <= k < |out| ensures out[k].pvalue <= cfg.cointPValueMax {
      assert out[k] == e[k];
      assert AtMost(cfg.cointPValueMax)(e[k]);
    }
  }

  /**
   * Every selected row is an eligible pair, and the selection is the first
   * `min(max_pairs, count)` eligible rows when `max_pairs` is not negative.
   */
  lemma SelectionIsBestEligible(t: Data.PriceTable, cfg: StrategyConfig, coint: (seq<real>, seq<real>) -> real)
    requires Data.WellFormed(t)
    ensures var rows := CandidatesOf(t, Combinations(|t.cols|), cfg.minOverlapDays, coint);
      var e := Eligible(rows, cfg.cointPValueMax);
      var out := SelectPairsSpec(t, cfg, coint);
      && out == e[..|out|]
      && (cfg.maxPairs >= 0 ==> |out| == if cfg.maxPairs < |e| then cfg.maxPairs else |e|)
      && (forall k :: 0 <= k < |out| ==> out[k] in e)
  {
  }

  /** Every selected row names two distinct columns, the first before the second. */
  lemma SelectedColumns(t: Data.PriceTable, cfg: StrategyConfig, coint: (seq<real>, seq<real>) -> real)
    requires Data.WellFormed(t)
    ensures var out := SelectPairsSpec(t, cfg, coint);
      forall k :: 0 <= k < |out| ==>
        && out[k].colA < out[k].colB < |t.cols|
        && out[k].a == t.tickers[out[k].colA] && out[k].b == t.tickers[out[k].colB]
        && Overlap(t, out[k].colA, out[k].colB) >= cfg.minOverlapDays
  {
    var out := SelectPairsSpec(t, cfg, coint);
    SelectionIsBestEligible(t, cfg, coint);
    forall k | 0 <= k < |out|
      ensures out[k].colA < out[k].colB < |t.cols|
      ensures out[k].a == t.tickers[out[k].colA] && out[k].b == t.tickers[out[k].colB]
      ensures Overlap(t, out[k].colA, out[k].colB) >= cfg.minOverlapDays
    {
      EligibleIff(t, cfg, coint, out[k]);
    }
  }

  // ---------------------------------------------------------------------------
  // run

  /** The lookbacks `run` passes on must be at least one row. */
  predicate RunnableConfig(cfg: StrategyConfig)
  {
    cfg.betaLookback >= 1 && cfg.zLookback >= 1
  }

  /** The columns of a selected row exist in the table, the first before the second. */
  predicate ValidRow(t: Data.PriceTable, s: Selected)
  {
    s.colA < s.colB < |t.cols|
  }

  /** The per-pair key `f"{A}__{B}"`. */
  function PairKey(s: Selected): (key: string)
    ensures key == s.a + "__" + s.b
    ensures |key| == |s.a| + 2 + |s.b| && key[..|s.a|] == s.a && key[|s.a| + 2..] == s.b
  {
    s.a + "__" + s.b
  }

  /** The spread of a pair under its rolling hedge ratio. */
  function PairSpread(t: Data.PriceTable, cfg: StrategyConfig, s: Selected, ols: (seq<real>, seq<real>) -> real): (spread: seq<Option<real>>)
    requires Data.WellFormed(t) && ValidRow(t, s) && RunnableConfig(cfg)
    ensures |spread| == |t.dates|
  {
    var y := t.cols[s.colA];
    var x := t.cols[s.colB];
    Signals.ComputeSpread(y, x, Stats.BetaSeries(y, x, cfg.betaLookback as nat, ols))
  }

  /** The backtest of one selected pair: hedge ratio, spread, z-score, positions, returns. */
  function PairBacktest(t: Data.PriceTable, cfg: StrategyConfig, s: Selected,
                        ols: (seq<real>, seq<real>) -> real, sqrt: real -> real): (bt: Backtest.BacktestResult)
    requires Data.WellFormed(t) && Data.PositivePrices(t) && ValidRow(t, s) && RunnableConfig(cfg)
    ensures |bt.retNet| == |t.dates|
  {
    var y := t.cols[s.colA];
    var x := t.cols[s.colB];
    var beta := Stats.BetaSeries(y, x, cfg.betaLookback as nat, ols);
    var z := Signals.RollingZScore(PairSpread(t, cfg, s, ols), cfg.zLookback as nat, sqrt);
    var pos := Signals.Positions(z, cfg.entryZ, cfg.exitZ);
    Backtest.PairReturnsCharged(y, x, beta, pos, cfg.feeBpsPerLeg, cfg.slippageBpsPerLeg, cfg.grossLeverage)
  }

  /** The keys of an association list. */
  function Keys<V>(d: seq<(string, V)>): set<string>
  {
    set k | 0 <= k < |d| :: d[k].0
  }

  predicate DistinctKeys<V>(d: seq<(string, V)>)
  {
    forall k, l :: 0 <= k < l < |d| ==> d[k].0 != d[l].0
  }

  /**
   * `d[key] = v` on a dict kept as an association list in insertion order: an existing
   * key keeps its place and takes the new value, a new key goes at the end.
   */
  function Assign<V>(d: seq<(string, V)>, key: string, v: V): (r: seq<(string, V)>)
    ensures Keys(r) == Keys(d) + {key}
    ensures |r| == if key in Keys(d) then |d| else |d| + 1
    ensures forall k :: 0 <= k < |d| && d[k].0 != key ==> r[k] == d[k]
    ensures forall k :: 0 <= k < |r| && r[k].0 == key ==> r[k].1 == v
    ensures DistinctKeys(d) ==> DistinctKeys(r)
  {
    if key in Keys(d) then
      var r := seq(|d|, k requires 0 <= k < |d| => if d[k].0 == key then (key, v) else d[k]);
      assert forall k :: 0 <= k < |d| ==> r[k].0 == d[k].0;
      assert Keys(r) == Keys(d);
      r
    else
      var r := d + [(key, v)];
      assert forall k :: 0 <= k < |d| ==> r[k] == d[k];
      assert Keys(r) == Keys(d) + {key} by {
        assert r[|d|].0 == key;
      }
      r
  }

  /** The dict built by assigning `vals[k]` to `keys[k]` for k = 0, 1, ... in turn. */
  function AssignAll<V>(keys: seq<string>, vals: seq<V>): (d: seq<(string, V)>)
    requires |keys| == |vals|
    ensures forall e :: 0 <= e < |d| ==> d[e].1 in vals
    ensures |d| == 0 <==> |keys| == 0
  {
    if |keys| == 0 then []
    else
      var n := |keys| - 1;
      var before := AssignAll(keys[..n], vals[..n]);
      assert forall v :: v in vals[..n] ==> v in vals;
      Assign(before, keys[n], vals[n])
  }

  lemma AssignAllStep<V>(keys: seq<string>, vals: seq<V>, k: nat)
    requires |keys| == |vals| && k < |keys|
    ensures AssignAll(keys[..k + 1], vals[..k + 1]) == Assign(AssignAll(keys[..k], vals[..k]), keys[k], vals[k])
  {
    assert keys[..k + 1][..k] == keys[..k];
    assert vals[..k + 1][..k] == vals[..k];
  }

  /** `v` is the value assigned last to `key`. */
  ghost predicate LastAssigned<V>(keys: seq<string>, vals: seq<V>, key: string, v: V)
    requires |keys| == |vals|
  {
    exists k :: 0 <= k < |keys| && keys[k] == key && vals[k] == v
      && (forall l :: k < l < |keys| ==> keys[l] != key)
  }

  /**
   * A dict built by assignments holds each assigned key once, and under each key the
   * value assigned to it last.
   */
  lemma {:induction false} AssignAllContents<V>(keys: seq<string>, vals: seq<V>)
    requires |keys| == |vals|
    ensures var d := AssignAll(keys, vals);
      && DistinctKeys(d)
      && Keys(d) == (set k | 0 <= k < |keys| :: keys[k])
      && forall e :: 0 <= e < |d| ==> LastAssigned(keys, vals, d[e].0, d[e].1)
  {
    if |keys| > 0 {
      var n := |keys| - 1;
      var pk, pv := keys[..n], vals[..n];
      AssignAllContents(pk, pv);
      var before := AssignAll(pk, pv);
      var d := AssignAll(keys, vals);
      KeySetStep(keys, pk);
      forall e | 0 <= e < |d| ensures LastAssigned(keys, vals, d[e].0, d[e].1) {
        if d[e].0 == keys[n] {
          assert vals[n] == d[e].1;
        } else {
          assert e < |before| && d[e] == before[e];
          LastAssignedExtends(keys, vals, d[e].0, d[e].1);
        }
      }
    }
  }

  /** The keys of a sequence are those of its prefix plus its last one. */
  lemma KeySetStep(keys: seq<string>, prefix: seq<string>)
    requires |keys| > 0 && prefix == keys[..|keys| - 1]
    ensures (set k | 0 <= k < |keys| :: keys[k]) == (set k | 0 <= k < |prefix| :: prefix[k]) + {keys[|keys| - 1]}
  {
    assert forall k :: 0 <= k < |prefix| ==> prefix[k] == keys[k];
  }

  /** A later assignment to another key leaves the last assignment of `key` in place. */
  lemma LastAssignedExtends<V>(keys: seq<string>, vals: seq<V>, key: string, v: V)
    requires |keys| == |vals| > 0 && keys[|keys| - 1] != key
    requires LastAssigned(keys[..|keys| - 1], vals[..|keys| - 1], key, v)
    ensures LastAssigned(keys, vals, key, v)
  {
    var n := |keys| - 1;
    var pk, pv := keys[..n], vals[..n];
    var k :| 0 <= k < n && pk[k] == key && pv[k] == v && (forall l :: k < l < n ==> pk[l] != key);
    assert forall l :: k < l < n ==> keys[l] == pk[l];
    assert keys[k] == key && vals[k] == v && (forall l :: k < l < |keys| ==> keys[l] != key);
  }

  /** The keys of the selected pairs, in order. */
  function PairKeys(pairs: seq<Selected>): (keys: seq<string>)
    ensures |keys| == |pairs| && forall k :: 0 <= k < |pairs| ==> keys[k] == PairKey(pairs[k])
  {
    seq(|pairs|, k requires 0 <= k < |pairs| => PairKey(pairs[k]))
  }

  /** The net returns of the selected pairs, in order. */
  function NetSeries(t: Data.PriceTable, cfg: StrategyConfig, pairs: seq<Selected>,
                     ols: (seq<real>, seq<real>) -> real, sqrt: real -> real): (nets: seq<seq<Option<real>>>)
    requires Data.WellFormed(t) && Data.PositivePrices(t) && RunnableConfig(cfg)
    requires forall k :: 0 <= k < |pairs| ==> ValidRow(t, pairs[k])
    ensures |nets| == |pairs|
    ensures forall k :: 0 <= k < |pairs| ==> nets[k] == PairBacktest(t, cfg, pairs[k], ols, sqrt).retNet
    ensures forall k :: 0 <= k < |pairs| ==> |nets[k]| == |t.dates|
  {
    seq(|pairs|, k requires 0 <= k < |pairs| => PairBacktest(t, cfg, pairs[k], ols, sqrt).retNet)
  }

  /** `pair_rets_net` after the loop over `pairs`. */
  function NetByPair(t: Data.PriceTable, cfg: StrategyConfig, pairs: seq<Selected>,
                     ols: (seq<real>, seq<real>) -> real, sqrt: real -> real): (d: seq<(string, seq<Option<real>>)>)
    requires Data.WellFormed(t) && Data.PositivePrices(t) && RunnableConfig(cfg)
    requires forall k :: 0 <= k < |pairs| ==> ValidRow(t, pairs[k])
    ensures forall k :: 0 <= k < |d| ==> |d[k].1| == |t.dates|
    ensures |d| == 0 <==> |pairs| == 0
  {
    AssignAll(PairKeys(pairs), NetSeries(t, cfg, pairs, ols, sqrt))
  }

  /** One row of `diagnostics`. */
  datatype Diagnostic = Diagnostic(pair: string, cointPValue: real, adfPValueSpread: Option<real>, nDays: nat)

  function Diagnose(t: Data.PriceTable, cfg: StrategyConfig, s: Selected, adf: seq<real> -> real,
                    ols: (seq<real>, seq<real>) -> real, sqrt: real -> real): Diagnostic
    requires Data.WellFormed(t) && Data.PositivePrices(t) && ValidRow(t, s) && RunnableConfig(cfg)
  {
    Diagnostic(PairKey(s), s.pvalue, Stats.AdfPValue(PairSpread(t, cfg, s, ols), adf),
               |Defined(PairBacktest(t, cfg, s, ols, sqrt).retNet)|)
  }

  function Diagnostics(t: Data.PriceTable, cfg: StrategyConfig, pairs: seq<Selected>, adf: seq<real> -> real,
                       ols: (seq<real>, seq<real>) -> real, sqrt: real -> real): (ds: seq<Diagnostic>)
    requires Data.WellFormed(t) && Data.PositivePrices(t) && RunnableConfig(cfg)
    requires forall k :: 0 <= k < |pairs| ==> ValidRow(t, pairs[k])
    ensures |ds| == |pairs|
  {
    seq(|pairs|, k requires 0 <= k < |pairs| => Diagnose(t, cfg, pairs[k], adf, ols, sqrt))
  }

  /** Every diagnostics row names its pair, repeats its p-value and counts at most one day per date. */
  lemma DiagnosticsRows(t: Data.PriceTable, cfg: StrategyConfig, pairs: seq<Selected>, adf: seq<real> -> real,
                        ols: (seq<real>, seq<real>) -> real, sqrt: real -> real, k: nat)
    requires Data.WellFormed(t) && Data.PositivePrices(t) && RunnableConfig(cfg)
    requires forall k :: 0 <= k < |pairs| ==> ValidRow(t, pairs[k])
    requires k < |pairs|
    ensures var d := Diagnostics(t, cfg, pairs, adf, ols, sqrt)[k];
      && d.pair == pairs[k].a + "__" + pairs[k].b
      && d.cointPValue == pairs[k].pvalue
      && d.nDays <= |t.dates|
      && (d.adfPValueSpread.None? <==> |Defined(PairSpread(t, cfg, pairs[k], ols))| < Stats.MinObservations)
  {
    var bt := PairBacktest(t, cfg, pairs[k], ols, sqrt);
    assert |Defined(bt.retNet)| <= |bt.retNet|;
  }

  /** The values of an association list, in order. */
  function Values<V>(d: seq<(string, V)>): (vs: seq<V>)
    ensures |vs| == |d| && forall k :: 0 <= k < |d| ==> vs[k] == d[k].1
  {
    seq(|d|, k requires 0 <= k < |d| => d[k].1)
  }

  /** What `run` computes once it has pairs to trade. */
  datatype RunReport = RunReport(
    pairs: seq<Selected>,
    netByPair: seq<(string, seq<Option<real>>)>,
    diagnostics: seq<Diagnostic>,
    portfolio: seq<Option<real>>,
    summary: map<string, Option<real>>,
    equity: seq<real>)

  /** The two `SystemExit`s of `run`. */
  datatype StopReason = NotEnoughTickers | NoCointegratedPairs

  datatype RunOutcome = Stopped(reason: StopReason) | Finished(report: RunReport)

  /** The report `run` builds from the cleaned table and its selected pairs. */
  function ReportOf(t: Data.PriceTable, cfg: StrategyConfig, pairs: seq<Selected>,
                    adf: seq<real> -> real, ols: (seq<real>, seq<real>) -> real,
                    sqrt: real -> real, pow: (real, real) -> real): (rep: RunReport)
    requires Data.WellFormed(t) && Data.PositivePrices(t) && RunnableConfig(cfg)
    requires forall k :: 0 <= k < |pairs| ==> ValidRow(t, pairs[k])
  {
    var net := NetByPair(t, cfg, pairs, ols, sqrt);
    var portfolio := Backtest.EqualWeightPortfolio(Values(net), |t.dates|);
    RunReport(pairs, net, Diagnostics(t, cfg, pairs, adf, ols, sqrt), portfolio,
              Metrics.Summarize(portfolio, sqrt, pow), Metrics.EquityCurve(portfolio, 1.0))
  }

  /** The body of the loop in `run`: backtest one selected pair and describe it. */
  method BacktestPair(prices: Data.PriceTable, cfg: StrategyConfig, row: Selected, adf: seq<real> -> real,
                      ols: (seq<real>, seq<real>) -> real, sqrt: real -> real)
      returns (key: string, net: seq<Option<real>>, diagnostic: Diagnostic)
    requires Data.WellFormed(prices) && Data.PositivePrices(prices) && ValidRow(prices, row) && RunnableConfig(cfg)
    ensures key == PairKey(row)
    ensures net == PairBacktest(prices, cfg, row, ols, sqrt).retNet
    ensures diagnostic == Diagnose(prices, cfg, row, adf, ols, sqrt)
  {
    var y := prices.cols[row.colA];
    var x := prices.cols[row.colB];
    var beta := Stats.RollingOlsBeta(y, x, cfg.betaLookback as nat, ols);
    var spread := Signals.ComputeSpread(y, x, beta);
    var z := Signals.RollingZScore(spread, cfg.zLookback as nat, sqrt);
    var pos := Signals.PositionsFromZ(z, cfg.entryZ, cfg.exitZ);
    var bt := Backtest.PairReturnsCharged(y, x, beta, pos, cfg.feeBpsPerLeg, cfg.slippageBpsPerLeg, cfg.grossLeverage);
    var adfP := Stats.AdfPValue(spread, adf);
    key := row.a + "__" + row.b;
    assert spread == PairSpread(prices, cfg, row, ols);
    assert bt == PairBacktest(prices, cfg, row, ols, sqrt);
    net := bt.retNet;
    diagnostic := Diagnostic(key, row.pvalue, adfP, |Defined(bt.retNet)|);
  }

  lemma PrefixStep<T>(s: seq<T>, k: nat)
    requires k < |s|
    ensures s[..k + 1] == s[..k] + [s[k]]
  {
  }

  /** The loop of `run` over the selected pairs: the net returns by key and the diagnostics. */
  method TradeLoop(prices: Data.PriceTable, cfg: StrategyConfig, pairs: seq<Selected>,
                   adf: seq<real> -> real, ols: (seq<real>, seq<real>) -> real, sqrt: real -> real)
      returns (net: seq<(string, seq<Option<real>>)>, diagnostics: seq<Diagnostic>)
    requires Data.WellFormed(prices) && Data.PositivePrices(prices) && RunnableConfig(cfg)
    requires forall k :: 0 <= k < |pairs| ==> ValidRow(prices, pairs[k])
    ensures net == NetByPair(prices, cfg, pairs, ols, sqrt)
    ensures diagnostics == Diagnostics(prices, cfg, pairs, adf, ols, sqrt)
  {
    ghost var keys := PairKeys(pairs);
    ghost var nets := NetSeries(prices, cfg, pairs, ols, sqrt);
    ghost var diags := Diagnostics(prices, cfg, pairs, adf, ols, sqrt);
    net := [];
    diagnostics := [];
    for k := 0 to |pairs|
      invariant net == AssignAll(keys[..k], nets[..k])
      invariant diagnostics == diags[..k]
    {
      var key, pairNet, diagnostic := BacktestPair(prices, cfg, pairs[k], adf, ols, sqrt);
      assert key == keys[k] && pairNet == nets[k];
      AssignAllStep(keys, nets, k);
      net := Assign(net, key, pairNet);
      diagnostics := diagnostics + [diagnostic];
      assert diagnostic == diags[k];
      PrefixStep(diags, k);
    }
    assert keys[..|pairs|] == keys;
    assert nets[..|pairs|] == nets;
  }

  /** The loop of `run` over the selected pairs, then the portfolio and its metrics. */
  method TradePairs(prices: Data.PriceTable, cfg: StrategyConfig, pairs: seq<Selected>,
                    adf: seq<real> -> real, ols: (seq<real>, seq<real>) -> real,
                    sqrt: real -> real, pow: (real, real) -> real) returns (report: RunReport)
    requires Data.WellFormed(prices) && Data.PositivePrices(prices) && RunnableConfig(cfg)
    requires forall k :: 0 <= k < |pairs| ==> ValidRow(prices, pairs[k])
    ensures report == ReportOf(prices, cfg, pairs, adf, ols, sqrt, pow)
  {
    var net, diagnostics := TradeLoop(prices, cfg, pairs, adf, ols, sqrt);
    var portfolio := Backtest.EqualWeightPortfolio(Values(net), |prices.dates|);
    var summary := Metrics.Summarize(portfolio, sqrt, pow);
    var eq := Metrics.EquityCurve(portfolio, 1.0);
    report := RunReport(pairs, net, diagnostics, portfolio, summary, eq);
  }

  /**
   * `run`, after the download: clean the prices, stop if fewer than two tickers survive,
   * select pairs, stop if there are none, then backtest every selected pair.
   */
  method Run(raw: Data.PriceTable, cfg: StrategyConfig, coint: (seq<real>, seq<real>) -> real,
             adf: seq<real> -> real, ols: (seq<real>, seq<real>) -> real,
             sqrt: real -> real, pow: (real, real) -> real) returns (o: RunOutcome)
    requires Data.WellFormed(raw) && Data.PositivePrices(raw) && RunnableConfig(cfg)
    ensures var prices := Data.AlignPrices(raw, cfg.minOverlapDays);
      && (o == Stopped(NotEnoughTickers) <==> |prices.tickers| < 2)
      && (o == Stopped(NoCointegratedPairs) <==> |prices.tickers| >= 2 && |SelectPairsSpec(prices, cfg, coint)| == 0)
      && (o.Finished? ==>
            Data.PositivePrices(prices)
            && (forall k :: 0 <= k < |o.report.pairs| ==> ValidRow(prices, o.report.pairs[k]))
            && o.report.pairs == SelectPairsSpec(prices, cfg, coint)
            && o.report == ReportOf(prices, cfg, o.report.pairs, adf, ols, sqrt, pow))
  {
    var prices := Data.AlignPrices(raw, cfg.minOverlapDays);
    if |prices.cols| < 2 {
      return Stopped(NotEnoughTickers);
    }
    var pairs := SelectPairs(prices, cfg, coint);
    if |pairs| == 0 {
      return Stopped(NoCointegratedPairs);
    }
    Data.AlignKeepsPositive(raw, cfg.minOverlapDays);
    SelectedColumns(prices, cfg, coint);
    var report := TradePairs(prices, cfg, pairs, adf, ols, sqrt, pow);
    o := Finished(report);
  }

  /**
   * A finished run holds one net-return series per distinct pair key, namely that of the
   * last selected pair with the key; the portfolio and its equity cover every date; the
   * summary has exactly the four metrics.
   */
  lemma FinishedReport(t: Data.PriceTable, cfg: StrategyConfig, pairs: seq<Selected>,
                       adf: seq<real> -> real, ols: (seq<real>, seq<real>) -> real,
                       sqrt: real -> real, pow: (real, real) -> real)
    requires Data.WellFormed(t) && Data.PositivePrices(t) && RunnableConfig(cfg)
    requires forall k :: 0 <= k < |pairs| ==> ValidRow(t, pairs[k])
    ensures var rep := ReportOf(t, cfg, pairs, adf, ols, sqrt, pow);
      && DistinctKeys(rep.netByPair)
      && Keys(rep.netByPair) == (set k | 0 <= k < |pairs| :: pairs[k].a + "__" + pairs[k].b)
      && (forall e :: 0 <= e < |rep.netByPair| ==>
            LastAssigned(PairKeys(pairs), NetSeries(t, cfg, pairs, ols, sqrt), rep.netByPair[e].0, rep.netByPair[e].1))
      && |rep.diagnostics| == |pairs|
      && |rep.portfolio| == |rep.equity| == (if |pairs| == 0 then 0 else |t.dates|)
      && rep.summary.Keys == {"annualized_return", "sharpe", "max_drawdown", "win_rate"}
  {
    var keys := PairKeys(pairs);
    ReportLengths(t, cfg, pairs, adf, ols, sqrt, pow);
    AssignAllContents(keys, NetSeries(t, cfg, pairs, ols, sqrt));
    PairKeySet(pairs);
  }

  /** The set of keys of the selected pairs is the set of their `f"{A}__{B}"` names. */
  lemma PairKeySet(pairs: seq<Selected>)
    ensures var keys := PairKeys(pairs);
      (set k | 0 <= k < |keys| :: keys[k]) == (set k | 0 <= k < |pairs| :: pairs[k].a + "__" + pairs[k].b)
  {
    var keys := PairKeys(pairs);
    assert forall k :: 0 <= k < |pairs| ==> keys[k] == pairs[k].a + "__" + pairs[k].b;
  }

  /** The portfolio and its equity cover every date when some pair is selected, and are empty otherwise. */
  lemma ReportLengths(t: Data.PriceTable, cfg: StrategyConfig, pairs: seq<Selected>,
                      adf: seq<real> -> real, ols: (seq<real>, seq<real>) -> real,
                      sqrt: real -> real, pow: (real, real) -> real)
    requires Data.WellFormed(t) && Data.PositivePrices(t) && RunnableConfig(cfg)
    requires forall k :: 0 <= k < |pairs| ==> ValidRow(t, pairs[k])
    ensures var rep := ReportOf(t, cfg, pairs, adf, ols, sqrt, pow);
      |rep.portfolio| == |rep.equity| == (if |pairs| == 0 then 0 else |t.dates|)
  {
    var net := NetByPair(t, cfg, pairs, ols, sqrt);
    assert |Values(net)| == 0 <==> |pairs| == 0;
  }

  /**
   * With no pairs the dict of net returns is empty, so the portfolio and its equity are
   * empty and every metric of the summary is undefined.
   */
  lemma NoPairsReport(t: Data.PriceTable, cfg: StrategyConfig,
                      adf: seq<real> -> real, ols: (seq<real>, seq<real>) -> real,
                      sqrt: real -> real, pow: (real, real) -> real)
    requires Data.WellFormed(t) && Data.PositivePrices(t) && RunnableConfig(cfg)
    ensures var rep := ReportOf(t, cfg, [], adf, ols, sqrt, pow);
      && rep.netByPair == [] && rep.portfolio == [] && rep.equity == []
      && forall key :: key in rep.summary ==> rep.summary[key].None?
  {
    var rep := ReportOf(t, cfg, [], adf, ols, sqrt, pow);
    assert rep.portfolio == [];
    assert Metrics.MaxDrawdown([]).None?;
  }
}
