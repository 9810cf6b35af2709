/**
 * The price table and `align_prices` (src/pairs_trading/data.py): sort the rows by
 * date, forward-fill each column, then keep only the tickers that have enough
 * non-missing prices. Dates are day numbers; a missing price is `None`.
 */
module Data {
  import opened Series
  import Sorting

  /** A wide table of adjusted closes, stored column by column. */
  datatype PriceTable = PriceTable(dates: seq<int>, tickers: seq<string>, cols: seq<seq<Option<real>>>)

  /** One column per ticker, one entry per date in every column. */
  predicate WellFormed(t: PriceTable)
  {
    && |t.cols| == |t.tickers|
    && forall c :: 0 <= c < |t.cols| ==> |t.cols[c]| == |t.dates|
  }

  /** Every price present in the table is positive. */
  predicate PositivePrices(t: PriceTable)
  {
    forall c :: 0 <= c < |t.cols| ==> PositiveSeries(t.cols[c])
  }

  predicate DatesAscending(dates: seq<int>)
  {
    forall i, j :: 0 <= i < j < |dates| ==> dates[i] <= dates[j]
  }

  // ---------------------------------------------------------------------------
  // sort_index

  /** The row order `sort_index` produces: the row indices, arranged by ascending date. */
  function SortOrder(dates: seq<int>): (order: seq<nat>)
    ensures |order| == |dates|
    ensures multiset(order) == multiset(Sorting.Range(|dates|))
    ensures forall k :: 0 <= k < |order| ==> order[k] < |dates|
    ensures forall i :: 0 <= i < |dates| ==> i in order
    ensures forall k, l :: 0 <= k < l < |order| ==> order[k] != order[l]
    ensures forall k, l :: 0 <= k < l < |order| ==> dates[order[k]] <= dates[order[l]]
  {
    var key := (k: nat) => if k < |dates| then dates[k] as real else 0.0;
    var order := Sorting.SortBy(Sorting.Range(|dates|), key);
    Sorting.PermutationOfRange(order, |dates|);
    assert forall k, l :: 0 <= k < l < |order| ==> key(order[k]) <= key(order[l]);
    order
  }

  /** `sort_index()`: the same rows, rearranged so that dates ascend. */
  function SortIndex(t: PriceTable): (r: PriceTable)
    requires WellFormed(t)
    ensures WellFormed(r)
    ensures r.tickers == t.tickers && |r.dates| == |t.dates|
    ensures DatesAscending(r.dates)
    ensures forall k :: 0 <= k < |r.dates| ==> r.dates[k] == t.dates[SortOrder(t.dates)[k]]
    ensures forall c, k :: 0 <= c < |r.cols| && 0 <= k < |r.dates| ==>
              r.cols[c][k] == t.cols[c][SortOrder(t.dates)[k]]
  {
    var order := SortOrder(t.dates);
    PriceTable(
      seq(|order|, k requires 0 <= k < |order| => t.dates[order[k]]),
      t.tickers,
      seq(|t.cols|, c requires 0 <= c < |t.cols| =>
        seq(|order|, k requires 0 <= k < |order| => t.cols[c][order[k]])))
  }

  // ---------------------------------------------------------------------------
  // ffill

  /** `ffill()` on one column: a missing price takes the filled value one row above. */
  function FFillColumn(col: seq<Option<real>>): (r: seq<Option<real>>)
    ensures |r| == |col|
  {
    if |col| == 0 then []
    else
      var above := FFillColumn(col[..|col| - 1]);
      var last := col[|col| - 1];
      above + [if last.Some? then last else if |col| == 1 then None else above[|col| - 2]]
  }

  /** Forward-filling a prefix gives the prefix of the forward-filled column. */
  lemma {:induction false} FFillPrefix(col: seq<Option<real>>, n: nat)
    requires n <= |col|
    ensures FFillColumn(col[..n]) == FFillColumn(col)[..n]
  {
    if n < |col| {
      var p := col[..|col| - 1];
      assert p[..n] == col[..n];
      FFillPrefix(p, n);
    } else {
      assert col[..n] == col;
    }
  }

  /** The row-by-row rule of ffill. */
  lemma FFillStep(col: seq<Option<real>>, i: nat)
    requires i < |col|
    ensures FFillColumn(col)[i] ==
      if col[i].Some? then col[i] else if i == 0 then None else FFillColumn(col)[i - 1]
  {
    var p := col[..i + 1];
    assert p[..|p| - 1] == col[..i];
    var above := FFillColumn(col[..i]);
    assert FFillColumn(p) == above + [if p[i].Some? then p[i] else if i == 0 then None else above[i - 1]];
    FFillPrefix(col, i + 1);
    FFillPrefix(col, i);
    assert FFillColumn(col)[i] == FFillColumn(p)[i];
    if i > 0 {
      assert above[i - 1] == FFillColumn(col)[i - 1];
    }
  }

  /** A price that is present is kept as it is. */
  lemma FFillKeepsPresent(col: seq<Option<real>>, i: nat)
    requires i < |col| && col[i].Some?
    ensures FFillColumn(col)[i] == col[i]
  {
    FFillStep(col, i);
  }

  /** After ffill a cell is still missing exactly when it and every cell above it are missing. */
  lemma {:induction false} FFillMissingIff(col: seq<Option<real>>, i: nat)
    requires i < |col|
    ensures FFillColumn(col)[i].None? <==> forall j :: 0 <= j <= i ==> col[j].None?
  {
    FFillStep(col, i);
    if i > 0 {
      FFillMissingIff(col, i - 1);
    }
  }

  /**
   * A missing cell takes the nearest present price above it: if row `j` holds a price
   * and rows `j + 1 .. i` are all missing, the filled value at `i` is the price at `j`.
   */
  lemma {:induction false} FFillNearestAbove(col: seq<Option<real>>, j: nat, i: nat)
    requires j <= i < |col|
    requires col[j].Some?
    requires forall k :: j < k <= i ==> col[k].None?
    ensures FFillColumn(col)[i] == col[j]
  {
    FFillStep(col, i);
    if i > j {
      FFillNearestAbove(col, j, i - 1);
    }
  }

  /** Every filled value is a price of the original column, found at or above its row. */
  lemma {:induction false} FFillValueFromAbove(col: seq<Option<real>>, i: nat)
    requires i < |col| && FFillColumn(col)[i].Some?
    ensures exists j :: 0 <= j <= i && col[j] == FFillColumn(col)[i]
  {
    FFillStep(col, i);
    if col[i].None? {
      FFillValueFromAbove(col, i - 1);
    }
  }

  /** `ffill()` on the whole table. */
  function FFill(t: PriceTable): (r: PriceTable)
    requires WellFormed(t)
    ensures WellFormed(r)
    ensures r.dates == t.dates && r.tickers == t.tickers
    ensures forall c :: 0 <= c < |r.cols| ==> r.cols[c] == FFillColumn(t.cols[c])
  {
    PriceTable(t.dates, t.tickers, seq(|t.cols|, c requires 0 <= c < |t.cols| => FFillColumn(t.cols[c])))
  }

  // ---------------------------------------------------------------------------
  // The column screen

  /** The number of non-missing prices in a column (`notna().sum()`). */
  function NonMissing(col: seq<Option<real>>): (n: nat)
    ensures n <= |col|
  {
    |Defined(col)|
  }

  /** The indices below `n` of the columns with at least `minCount` prices, in order. */
  function KeptColumns(cols: seq<seq<Option<real>>>, minCount: int, n: nat): (keep: seq<nat>)
    requires n <= |cols|
    ensures forall k :: 0 <= k < |keep| ==> keep[k] < n
    ensures forall k, l :: 0 <= k < l < |keep| ==> keep[k] < keep[l]
    ensures forall c :: 0 <= c < n ==> (c in keep <==> NonMissing(cols[c]) >= minCount)
  {
    if n == 0 then []
    else
      var before := KeptColumns(cols, minCount, n - 1);
      before + (if NonMissing(cols[n - 1]) >= minCount then [n - 1] else [])
  }

  /** `p.loc[:, p.notna().sum(axis=0) >= min_overlap_days]`. */
  function Screen(t: PriceTable, minCount: int): (r: PriceTable)
    requires WellFormed(t)
    ensures WellFormed(r)
    ensures r.dates == t.dates
  {
    var keep := KeptColumns(t.cols, minCount, |t.cols|);
    PriceTable(
      t.dates,
      seq(|keep|, k requires 0 <= k < |keep| => t.tickers[keep[k]]),
      seq(|keep|, k requires 0 <= k < |keep| => t.cols[keep[k]]))
  }

  /** `align_prices`: sort by date, forward-fill, then screen the columns. */
  function AlignPrices(t: PriceTable, minOverlapDays: int): (r: PriceTable)
    requires WellFormed(t)
    ensures WellFormed(r)
    ensures |r.dates| == |t.dates|
    ensures DatesAscending(r.dates)
  {
    Screen(FFill(SortIndex(t)), minOverlapDays)
  }

  /**
   * What survives `align_prices`: the tickers whose forward-filled columns have at least
   * `minOverlapDays` prices, in their original relative order, each column being the
   * forward-filled, date-sorted original column.
   */
  lemma AlignedColumns(t: PriceTable, minOverlapDays: int)
    requires WellFormed(t)
    ensures var sorted := SortIndex(t);
            var keep := KeptColumns(FFill(sorted).cols, minOverlapDays, |t.cols|);
            var r := AlignPrices(t, minOverlapDays);
            && |r.tickers| == |keep|
            && (forall k, l :: 0 <= k < l < |keep| ==> keep[k] < keep[l])
            && (forall c :: 0 <= c < |t.cols| ==>
                  (c in keep <==> NonMissing(FFillColumn(sorted.cols[c])) >= minOverlapDays))
            && (forall k :: 0 <= k < |keep| ==>
                  r.tickers[k] == t.tickers[keep[k]] && r.cols[k] == FFillColumn(sorted.cols[keep[k]]))
  {
  }

  /** `align_prices` only moves and copies prices, so it keeps them positive. */
  lemma AlignKeepsPositive(t: PriceTable, minOverlapDays: int)
    requires WellFormed(t) && PositivePrices(t)
    ensures PositivePrices(AlignPrices(t, minOverlapDays))
  {
    var sorted := SortIndex(t);
    assert PositivePrices(sorted);
    var filled := FFill(sorted);
    forall c, i | 0 <= c < |filled.cols| && 0 <= i < |filled.cols[c]| && filled.cols[c][i].Some?
      ensures filled.cols[c][i].value > 0.0
    {
      FFillValueFromAbove(sorted.cols[c], i);
    }
  }
}
