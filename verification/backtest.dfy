/**
 The static-portfolio backtest (`backtest_portfolio`): per-ticker simple
 returns from consecutive prices, the dates on which every ticker has a
 return, the weighted sum of those returns on each such date, and the
 compounded equity curve.

 Prices arrive as an aligned table: one row per date, each row holding a
 price for some of the table's columns. The fetch that fills it is not part
 of this model.
 */
module Backtest {
  import opened Weights

  datatype PriceRow = PriceRow(date: string, prices: map<string, real>)

  datatype PriceTable = PriceTable(columns: seq<string>, rows: seq<PriceRow>)

  /** One line of the result: `Date`, `Returns`, `Equity`. */
  datatype ResultRow = ResultRow(date: string, ret: real, equity: real)

  predicate DistinctColumns(columns: seq<string>) {
    forall i, j :: 0 <= i < j < |columns| ==> columns[i] != columns[j]
  }

  /** Every price of a row is under a column and positive. */
  predicate RowWellFormed(columns: seq<string>, row: PriceRow) {
    forall c :: c in row.prices ==> c in columns && row.prices[c] > 0.0
  }

  /** Column names are distinct and every row is well formed. */
  predicate WellFormed(t: PriceTable) {
    && DistinctColumns(t.columns)
    && forall d :: 0 <= d < |t.rows| ==> RowWellFormed(t.columns, t.rows[d])
  }

  /** `pct_change` has a value for column `c` at date `d`: both this and the
      previous date carry a price for it. */
  predicate HasReturn(t: PriceTable, d: int, c: string) {
    1 <= d < |t.rows| && c in t.rows[d].prices && c in t.rows[d - 1].prices
  }

  /** `p[d] / p[d-1] - 1`. */
  function ReturnAt(t: PriceTable, d: int, c: string): (r: real)
    requires WellFormed(t) && HasReturn(t, d, c)
    ensures r > -1.0
  {
    assert RowWellFormed(t.columns, t.rows[d]) && RowWellFormed(t.columns, t.rows[d - 1]);
    var now, before := t.rows[d].prices[c], t.rows[d - 1].prices[c];
    assert now / before > 0.0;
    now / before - 1.0
  }

  /** `dropna()` keeps a date exactly when no column's return is missing;
      the first date has no returns, so it goes whenever there is a column. */
  predicate Kept(t: PriceTable, d: int) {
    0 <= d < |t.rows| && forall c :: c in t.columns ==> HasReturn(t, d, c)
  }

  /** The kept dates among the first `n`, in order. */
  function KeptBefore(t: PriceTable, n: nat): (ds: seq<nat>)
    requires n <= |t.rows|
    ensures forall i :: 0 <= i < |ds| ==> ds[i] < n && Kept(t, ds[i])
    ensures forall i, j :: 0 <= i < j < |ds| ==> ds[i] < ds[j]
    ensures forall d :: 0 <= d < n && Kept(t, d) ==> d in ds
  {
    if n == 0 then [] else KeptBefore(t, n - 1) + (if Kept(t, n - 1) then [n - 1] else [])
  }

  /** The dates of the return table after `dropna()`. */
  function ReturnDates(t: PriceTable): (ds: seq<nat>)
    ensures forall i, j :: 0 <= i < j < |ds| ==> ds[i] < ds[j]
    ensures forall d: nat :: d in ds <==> Kept(t, d)
    ensures |t.columns| > 0 ==> forall i :: 0 <= i < |ds| ==> ds[i] >= 1
  {
    assert |t.columns| > 0 ==> !HasReturn(t, 0, t.columns[0]);
    KeptBefore(t, |t.rows|)
  }

  /** The entries of `weight_series` are keyed by distinct tickers. */
  predicate UniqueTickers(ws: seq<Position>) {
    forall i, j :: 0 <= i < j < |ws| ==> ws[i].ticker != ws[j].ticker
  }

  /** The weight aligned to column `c`; a column without a weight gives a
      missing product, which the row sum skips, the same as a weight of 0. */
  function WeightOf(ws: seq<Position>, c: string): real {
    if |ws| == 0 then 0.0
    else if ws[0].ticker == c then ws[0].weight
    else WeightOf(ws[1..], c)
  }

  /** A ticker without an entry weighs 0. */
  lemma {:induction false} WeightOfAbsent(ws: seq<Position>, c: string)
    requires forall i :: 0 <= i < |ws| ==> ws[i].ticker != c
    ensures WeightOf(ws, c) == 0.0
    decreases |ws|
  {
    if |ws| > 0 {
      var rest := ws[1..];
      assert forall i :: 0 <= i < |rest| ==> rest[i] == ws[i + 1];
      WeightOfAbsent(rest, c);
    }
  }

  /** With distinct tickers, a ticker that has an entry gets exactly that
      entry's weight. */
  lemma {:induction false} WeightOfOnlyMatch(ws: seq<Position>, c: string, k: nat)
    requires UniqueTickers(ws) && k < |ws| && ws[k].ticker == c
    ensures WeightOf(ws, c) == ws[k].weight
    decreases k
  {
    if k > 0 {
      var rest := ws[1..];
      assert ws[0].ticker != c;
      assert UniqueTickers(rest) by {
        assert forall i :: 0 <= i < |rest| ==> rest[i] == ws[i + 1];
      }
      assert rest[k - 1] == ws[k];
      WeightOfOnlyMatch(rest, c, k - 1);
    }
  }

  /** The returns of date `d`, column by column; a column without a return
      reads as 0, which never happens on a kept date. */
  function DayReturns(t: PriceTable, d: int): string -> real {
    c => if WellFormed(t) && HasReturn(t, d, c) then ReturnAt(t, d, c) else 0.0
  }

  /** `returns.mul(weight_series, axis=1).sum(axis=1)` over the columns in
      `cols`: each column's return `ret(c)` times its aligned weight. */
  function ColumnSum(cols: seq<string>, ws: seq<Position>, ret: string -> real): real {
    if |cols| == 0 then 0.0
    else WeightOf(ws, cols[0]) * ret(cols[0]) + ColumnSum(cols[1..], ws, ret)
  }

  /** The portfolio's return on a kept date. */
  function PortfolioReturn(t: PriceTable, d: int, ws: seq<Position>): real
    requires WellFormed(t) && Kept(t, d)
  {
    ColumnSum(t.columns, ws, DayReturns(t, d))
  }

  /** The same sum counted by holding: every weight whose ticker is among
      `cols`, times that column's return. Weights for other tickers add
      nothing. */
  function HoldingSum(cols: seq<string>, ws: seq<Position>, ret: string -> real): real {
    if |ws| == 0 then 0.0
    else
      (if ws[0].ticker in cols then ws[0].weight * ret(ws[0].ticker) else 0.0)
      + HoldingSum(cols, ws[1..], ret)
  }

  /** A single weight, summed over distinct columns, lands on its own column
      or nowhere. */
  lemma {:induction false} ColumnSumOfOne(cols: seq<string>, w: Position, ret: string -> real)
    requires DistinctColumns(cols)
    ensures ColumnSum(cols, [w], ret) == if w.ticker in cols then w.weight * ret(w.ticker) else 0.0
    decreases |cols|
  {
    if |cols| > 0 {
      var rest := cols[1..];
      assert DistinctColumns(rest) by {
        assert forall i :: 0 <= i < |rest| ==> rest[i] == cols[i + 1];
      }
      ColumnSumOfOne(rest, w, ret);
      assert [w][1..] == [];
      assert cols == [cols[0]] + rest;
      assert ColumnSum(cols, [w], ret) == WeightOf([w], cols[0]) * ret(cols[0]) + ColumnSum(rest, [w], ret);
      if cols[0] == w.ticker {
        assert w.ticker !in rest by {
          assert forall i :: 0 <= i < |rest| ==> rest[i] == cols[i + 1];
        }
        assert WeightOf([w], cols[0]) == w.weight;
      } else {
        assert WeightOf([w], cols[0]) == 0.0;
      }
    }
  }

  /** Without weights every column contributes 0. */
  lemma {:induction false} ColumnSumOfNone(cols: seq<string>, ret: string -> real)
    ensures ColumnSum(cols, [], ret) == 0.0
    decreases |cols|
  {
    if |cols| > 0 {
      ColumnSumOfNone(cols[1..], ret);
    }
  }

  /** With distinct tickers a column's weight comes from the first entry
      or from the others, never both. */
  lemma WeightOfSplit(ws: seq<Position>, c: string)
    requires |ws| > 0 && UniqueTickers(ws)
    ensures WeightOf(ws, c) == WeightOf([ws[0]], c) + WeightOf(ws[1..], c)
  {
    assert [ws[0]][1..] == [];
    if ws[0].ticker == c {
      var rest := ws[1..];
      assert forall i :: 0 <= i < |rest| ==> rest[i] == ws[i + 1];
      WeightOfAbsent(rest, c);
    }
  }

  lemma Distribute(a: real, b: real, r: real)
    ensures (a + b) * r == a * r + b * r
  {
  }

  /** With distinct tickers the column sum splits between the first entry
      and the others. */
  lemma {:induction false} ColumnSumSplit(cols: seq<string>, ws: seq<Position>, ret: string -> real)
    requires |ws| > 0 && UniqueTickers(ws)
    ensures ColumnSum(cols, ws, ret) == ColumnSum(cols, [ws[0]], ret) + ColumnSum(cols, ws[1..], ret)
    decreases |cols|
  {
    if |cols| > 0 {
      ColumnSumSplit(cols[1..], ws, ret);
      WeightOfSplit(ws, cols[0]);
      Distribute(WeightOf([ws[0]], cols[0]), WeightOf(ws[1..], cols[0]), ret(cols[0]));
    }
  }

  /** Counting by column and counting by holding agree whenever the columns
      and the tickers are distinct: a holding without a column contributes
      0, and so does a column without a holding. */
  lemma {:induction false} ColumnSumByHolding(cols: seq<string>, ws: seq<Position>, ret: string -> real)
    requires DistinctColumns(cols) && UniqueTickers(ws)
    ensures ColumnSum(cols, ws, ret) == HoldingSum(cols, ws, ret)
    decreases |ws|
  {
    if |ws| == 0 {
      ColumnSumOfNone(cols, ret);
    } else {
      var rest := ws[1..];
      assert UniqueTickers(rest) by {
        assert forall i :: 0 <= i < |rest| ==> rest[i] == ws[i + 1];
      }
      ColumnSumSplit(cols, ws, ret);
      ColumnSumOfOne(cols, ws[0], ret);
      ColumnSumByHolding(cols, rest, ret);
    }
  }

  /** The portfolio return is the sum of weight times return over the
      holdings that have a price column. */
  lemma PortfolioReturnByHolding(t: PriceTable, d: int, ws: seq<Position>)
    requires WellFormed(t) && Kept(t, d) && UniqueTickers(ws)
    ensures PortfolioReturn(t, d, ws) == HoldingSum(t.columns, ws, DayReturns(t, d))
  {
    ColumnSumByHolding(t.columns, ws, DayReturns(t, d));
  }

  /** A holding whose ticker has no price column leaves every portfolio
      return unchanged. */
  lemma UnpricedHoldingContributesNothing(t: PriceTable, d: int, w: Position, ws: seq<Position>)
    requires WellFormed(t) && Kept(t, d) && UniqueTickers([w] + ws)
    requires w.ticker !in t.columns
    ensures UniqueTickers(ws)
    ensures PortfolioReturn(t, d, [w] + ws) == PortfolioReturn(t, d, ws)
  {
    assert UniqueTickers(ws) by {
      assert forall i :: 0 <= i < |ws| ==> ws[i] == ([w] + ws)[i + 1];
    }
    PortfolioReturnByHolding(t, d, [w] + ws);
    PortfolioReturnByHolding(t, d, ws);
    assert ([w] + ws)[1..] == ws;
  }

  /** The portfolio return on every kept date, in date order. */
  function PortfolioReturns(t: PriceTable, ws: seq<Position>): (rs: seq<real>)
    requires WellFormed(t)
    ensures |rs| == |ReturnDates(t)|
    ensures forall i :: 0 <= i < |rs| ==> rs[i] == PortfolioReturn(t, ReturnDates(t)[i], ws)
  {
    var ds := ReturnDates(t);
    seq(|ds|, i requires 0 <= i < |ds| => PortfolioReturn(t, ds[i], ws))
  }

  /** The product of `1 + r` over a run of returns. */
  function Growth(rs: seq<real>): real {
    if |rs| == 0 then 1.0 else Growth(rs[..|rs| - 1]) * (1.0 + rs[|rs| - 1])
  }

  /** The equity after each return: the growth of every prefix. */
  function Equity(rs: seq<real>): (eq: seq<real>)
    ensures |eq| == |rs|
  {
    seq(|rs|, i requires 0 <= i < |rs| => Growth(rs[..i + 1]))
  }

  /** One more return multiplies the growth by `1 + r`. */
  lemma GrowthStep(rs: seq<real>, k: nat)
    requires k < |rs|
    ensures Growth(rs[..k + 1]) == Growth(rs[..k]) * (1.0 + rs[k])
  {
    assert rs[..k + 1][..k] == rs[..k];
  }

  /** The equity curve starts at `1 + r[0]` and each later point is the
      previous one times `1 + r[i]`. */
  lemma EquityRecurrence(rs: seq<real>)
    ensures |rs| > 0 ==> Equity(rs)[0] == 1.0 + rs[0]
    ensures forall i :: 1 <= i < |rs| ==> Equity(rs)[i] == Equity(rs)[i - 1] * (1.0 + rs[i])
  {
    var eq := Equity(rs);
    if |rs| > 0 {
      assert eq[0] == 1.0 + rs[0] by {
        GrowthStep(rs, 0);
        assert rs[..0] == [];
      }
    }
    forall i | 1 <= i < |rs|
      ensures eq[i] == eq[i - 1] * (1.0 + rs[i])
    {
      assert eq[i - 1] == Growth(rs[..i]);
      GrowthStep(rs, i);
    }
  }

  /** `(1 + r).cumprod()`: the running product, with no reset. */
  method CumProd(rs: seq<real>) returns (eq: seq<real>)
    ensures eq == Equity(rs)
  {
    eq := [];
    var acc := 1.0;
    for k := 0 to |rs|
      invariant |eq| == k
      invariant acc == Growth(rs[..k])
      invariant forall i :: 0 <= i < k ==> eq[i] == Growth(rs[..i + 1])
    {
      GrowthStep(rs, k);
      acc := acc * (1.0 + rs[k]);
      eq := eq + [acc];
    }
  }

  /** The whole backtest over an aligned price table: one result row per
      kept date, in order, with that date's portfolio return and the equity
      compounded up to it. */
  method RunBacktest(t: PriceTable, ws: seq<Position>) returns (result: seq<ResultRow>)
    requires WellFormed(t) && UniqueTickers(ws)
    ensures |result| == |ReturnDates(t)|
    ensures forall i :: 0 <= i < |result| ==>
              && result[i].date == t.rows[ReturnDates(t)[i]].date
              && result[i].ret == HoldingSum(t.columns, ws, DayReturns(t, ReturnDates(t)[i]))
              && result[i].equity == Equity(PortfolioReturns(t, ws))[i]
  {
    var ds := ReturnDates(t);
    var rs := PortfolioReturns(t, ws);
    var eq := CumProd(rs);
    result := seq(|ds|, i requires 0 <= i < |ds| => ResultRow(t.rows[ds[i]].date, rs[i], eq[i]));
    forall i | 0 <= i < |ds|
      ensures result[i].ret == HoldingSum(t.columns, ws, DayReturns(t, ds[i]))
    {
      PortfolioReturnByHolding(t, ds[i], ws);
    }
  }

  /** The weight of every holding is zero. */
  predicate AllZero(ws: seq<Position>) {
    forall i :: 0 <= i < |ws| ==> ws[i].weight == 0.0
  }

  lemma {:induction false} HoldingSumOfZeros(cols: seq<string>, ws: seq<Position>, ret: string -> real)
    requires AllZero(ws)
    ensures HoldingSum(cols, ws, ret) == 0.0
    decreases |ws|
  {
    if |ws| > 0 {
      assert AllZero(ws[1..]) by {
        assert forall i :: 0 <= i < |ws| - 1 ==> ws[1..][i] == ws[i + 1];
      }
      HoldingSumOfZeros(cols, ws[1..], ret);
    }
  }

  lemma {:induction false} GrowthOfZeros(rs: seq<real>)
    requires forall i :: 0 <= i < |rs| ==> rs[i] == 0.0
    ensures Growth(rs) == 1.0
    decreases |rs|
  {
    if |rs| > 0 {
      GrowthOfZeros(rs[..|rs| - 1]);
    }
  }

  /** With every weight at zero each portfolio return is 0 and the equity
      stays at 1 throughout. */
  lemma ZeroWeightsFlatEquity(t: PriceTable, ws: seq<Position>)
    requires WellFormed(t) && UniqueTickers(ws) && AllZero(ws)
    ensures var rs := PortfolioReturns(t, ws);
            forall i :: 0 <= i < |rs| ==> rs[i] == 0.0 && Equity(rs)[i] == 1.0
  {
    var rs := PortfolioReturns(t, ws);
    var ds := ReturnDates(t);
    forall i | 0 <= i < |rs|
      ensures rs[i] == 0.0
    {
      PortfolioReturnByHolding(t, ds[i], ws);
      HoldingSumOfZeros(t.columns, ws, DayReturns(t, ds[i]));
    }
    forall i | 0 <= i < |rs|
      ensures rs[i] == 0.0 && Equity(rs)[i] == 1.0
    {
      GrowthOfZeros(rs[..i + 1]);
    }
  }

  /** A table with one column `c` priced on every date. */
  predicate SingleSeries(t: PriceTable, c: string) {
    && t.columns == [c]
    && forall d :: 0 <= d < |t.rows| ==> c in t.rows[d].prices
  }

  /** With one fully priced column, every date but the first is kept. */
  lemma {:induction false} SingleSeriesDates(t: PriceTable, c: string, n: nat)
    requires SingleSeries(t, c) && 1 <= n <= |t.rows|
    ensures |KeptBefore(t, n)| == n - 1
    ensures forall i :: 0 <= i < n - 1 ==> KeptBefore(t, n)[i] == i + 1
    decreases n
  {
    if n > 1 {
      SingleSeriesDates(t, c, n - 1);
      assert Kept(t, n - 1);
    } else {
      assert c in t.columns && !HasReturn(t, 0, c);
    }
  }

  /** Growth `pk / p0` so far, times one more gross return `pd / pk`. */
  lemma RatioStep(g: real, x: real, p0: real, pk: real, pd: real)
    requires p0 > 0.0 && pk > 0.0 && pd > 0.0
    requires g == pk / p0 && x == pd / pk - 1.0
    ensures g * (1.0 + x) == pd / p0
  {
    assert 1.0 + x == pd / pk;
    assert (pk / p0) * (pd / pk) == (pk * pd) / (p0 * pk);
  }

  /** The equity after `k + 1` returns, from the equity after `k`. */
  lemma TelescopeStep(rs: seq<real>, k: nat, p0: real, pk: real, pd: real)
    requires k < |rs| && p0 > 0.0 && pk > 0.0 && pd > 0.0
    requires rs[k] == pd / pk - 1.0
    requires k == 0 ==> pk == p0
    requires k > 0 ==> Growth(rs[..k]) == pk / p0
    ensures Growth(rs[..k + 1]) == pd / p0
  {
    GrowthStep(rs, k);
    if k == 0 {
      assert rs[..0] == [];
      RatioStep(Growth(rs[..k]), rs[k], p0, p0, pd);
    } else {
      RatioStep(Growth(rs[..k]), rs[k], p0, pk, pd);
    }
  }

  /** A single holding at weight 1 earns its asset's return on each kept
      date. */
  lemma SingleHoldingReturn(t: PriceTable, c: string, k: nat)
    requires WellFormed(t) && SingleSeries(t, c)
    requires k < |ReturnDates(t)|
    ensures k + 1 < |t.rows|
    ensures ReturnDates(t)[k] == k + 1
    ensures t.rows[0].prices[c] > 0.0 && t.rows[k].prices[c] > 0.0 && t.rows[k + 1].prices[c] > 0.0
    ensures PortfolioReturns(t, [Position(c, 1.0)])[k] ==
            t.rows[k + 1].prices[c] / t.rows[k].prices[c] - 1.0
  {
    var ws := [Position(c, 1.0)];
    var d := k + 1;
    assert ReturnDates(t)[k] == d by {
      SingleSeriesDates(t, c, |t.rows|);
    }
    assert RowWellFormed(t.columns, t.rows[k]) && RowWellFormed(t.columns, t.rows[d]);
    assert RowWellFormed(t.columns, t.rows[0]);
    assert Kept(t, d);
    var r := ReturnAt(t, d, c);
    var ret := DayReturns(t, d);
    assert ret(c) == r;
    assert PortfolioReturns(t, ws)[k] == HoldingSum(t.columns, ws, ret) by {
      PortfolioReturnByHolding(t, d, ws);
    }
    assert HoldingSum(t.columns, ws, ret) == 1.0 * r + HoldingSum(t.columns, [], ret) by {
      assert c in t.columns;
      assert ws[1..] == [];
    }
  }

  /** Compounding the returns of a price path multiplies out to the last
      price over the first. */
  lemma {:induction false} GrowthTelescopes(rs: seq<real>, p: seq<real>, k: nat)
    requires |p| == |rs| + 1 && k < |rs|
    requires forall i :: 0 <= i < |p| ==> p[i] > 0.0
    requires forall i :: 0 <= i < |rs| ==> rs[i] == p[i + 1] / p[i] - 1.0
    ensures Growth(rs[..k + 1]) == p[k + 1] / p[0]
    decreases k
  {
    if k > 0 {
      GrowthTelescopes(rs, p, k - 1);
    }
    TelescopeStep(rs, k, p[0], p[k], p[k + 1]);
  }

  /** The prices of column `c`, date by date. */
  function PricePath(t: PriceTable, c: string): (p: seq<real>)
    requires SingleSeries(t, c)
    ensures |p| == |t.rows|
    ensures forall i :: 0 <= i < |t.rows| ==> p[i] == t.rows[i].prices[c]
  {
    seq(|t.rows|, i requires 0 <= i < |t.rows| => t.rows[i].prices[c])
  }

  /** A single holding at weight 1 in a fully priced column: every date but
      the first is kept, and the equity telescopes to the price relative to
      the first date, `p[i+1] / p[0]`. */
  lemma SingleHoldingTelescopes(t: PriceTable, c: string)
    requires WellFormed(t) && SingleSeries(t, c) && |t.rows| >= 1
    ensures var rs := PortfolioReturns(t, [Position(c, 1.0)]);
            && |rs| == |t.rows| - 1
            && forall k :: 0 <= k < |rs| ==>
                 Equity(rs)[k] == PricePath(t, c)[k + 1] / PricePath(t, c)[0]
  {
    var rs := PortfolioReturns(t, [Position(c, 1.0)]);
    var p := PricePath(t, c);
    SingleSeriesDates(t, c, |t.rows|);
    forall i | 0 <= i < |p|
      ensures p[i] > 0.0
    {
      assert RowWellFormed(t.columns, t.rows[i]);
    }
    forall i | 0 <= i < |rs|
      ensures rs[i] == p[i + 1] / p[i] - 1.0
    {
      SingleHoldingReturn(t, c, i);
    }
    forall k | 0 <= k < |rs|
      ensures Equity(rs)[k] == p[k + 1] / p[0]
    {
      GrowthTelescopes(rs, p, k);
    }
  }

  /** Two names over two dates: `A` goes from 100 to 110 and `B` from 50
      to 45. */
  predicate TwoNamesTable(t: PriceTable) {
    t == PriceTable(["A", "B"], [PriceRow("d1", map["A" := 100.0, "B" := 50.0]),
                                 PriceRow("d2", map["A" := 110.0, "B" := 45.0])])
  }

  /** The first date of the two-name table has no returns; the second is
      kept. */
  lemma TwoNamesKept(t: PriceTable)
    requires TwoNamesTable(t)
    ensures WellFormed(t) && !Kept(t, 0) && Kept(t, 1)
  {
    assert !HasReturn(t, 0, "A");
  }

  lemma TwoNamesDates(t: PriceTable)
    requires TwoNamesTable(t)
    ensures ReturnDates(t) == [1]
  {
    TwoNamesKept(t);
    assert KeptBefore(t, 1) == [];
    assert KeptBefore(t, 2) == [] + [1];
  }

  /** On the second date `A` is up 10% and `B` down 10%. */
  lemma TwoNamesDayReturns(t: PriceTable)
    requires TwoNamesTable(t)
    ensures DayReturns(t, 1)("A") == 0.1 && DayReturns(t, 1)("B") == -0.1
  {
    TwoNamesKept(t);
    assert ReturnAt(t, 1, "A") == 0.1;
    assert ReturnAt(t, 1, "B") == -0.1;
  }

  /** `0.6` of a 10% gain and `0.4` of a 10% loss. */
  lemma TwoNamesHoldingSum(cols: seq<string>, ws: seq<Position>, ret: string -> real)
    requires ws == [Position("A", 0.6), Position("B", 0.4)]
    requires "A" in cols && "B" in cols
    requires ret("A") == 0.1 && ret("B") == -0.1
    ensures HoldingSum(cols, ws, ret) == 0.02
  {
    var rest := ws[1..];
    assert rest == [Position("B", 0.4)];
    assert rest[1..] == [];
    assert HoldingSum(cols, rest, ret) == 0.4 * -0.1 + HoldingSum(cols, [], ret);
    assert HoldingSum(cols, ws, ret) == 0.6 * 0.1 + HoldingSum(cols, rest, ret);
  }

  /** A single return `r` gives the one-point equity curve `1 + r`. */
  lemma EquityOfOne(rs: seq<real>)
    requires |rs| == 1
    ensures Equity(rs) == [1.0 + rs[0]]
  {
    GrowthStep(rs, 0);
    assert rs[..0] == [];
    assert Equity(rs)[0] == 1.0 + rs[0];
  }

  /** With weights `0.6` and `0.4` the one return date earns
      `0.6 * 0.1 + 0.4 * -0.1`, and the equity ends at `1.02`. */
  lemma ExampleTwoNames(t: PriceTable, ws: seq<Position>)
    requires TwoNamesTable(t)
    requires ws == [Position("A", 0.6), Position("B", 0.4)]
    ensures WellFormed(t) && UniqueTickers(ws)
    ensures ReturnDates(t) == [1]
    ensures PortfolioReturns(t, ws) == [0.02]
    ensures Equity(PortfolioReturns(t, ws)) == [1.02]
  {
    TwoNamesKept(t);
    TwoNamesDates(t);
    TwoNamesDayReturns(t);
    TwoNamesHoldingSum(t.columns, ws, DayReturns(t, 1));
    PortfolioReturnByHolding(t, 1, ws);
    var rs := PortfolioReturns(t, ws);
    assert rs == [0.02];
    EquityOfOne(rs);
  }
}
