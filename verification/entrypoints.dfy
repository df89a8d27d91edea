/**
 The two other callers of the weight construction: the Streamlit page, which
 reads an uploaded table and bounds its inputs with widgets, and the HTTP
 endpoint, which takes a `{ticker: prediction}` object. Both repeat the
 steps of `construct_portfolio` line for line, so both are modelled on
 `Construct.ConstructPortfolio`.
 */
module Entrypoints {
  import opened Ranking
  import opened Weights
  import opened Results
  import opened Construct

  /** The largest count either page widget accepts. */
  const MaxCount := 50

  /** The ranges of the three number inputs on the page. */
  predicate WidgetBounds(topN: int, shortN: int, cap: real) {
    1 <= topN <= MaxCount && 1 <= shortN <= MaxCount && 0.0 <= cap <= 1.0
  }

  /** An uploaded table: its column names, and its rows read as
      `(Ticker, Prediction)` when both of those columns are present. */
  datatype Upload = Upload(columns: seq<string>, rows: seq<Row>)

  predicate HasRequiredColumns(columns: seq<string>) {
    "Ticker" in columns && "Prediction" in columns
  }

  /** The page after an upload: a table missing either column is rejected
      with an error message, any other table goes to `construct_from_df`
      with the widget values. */
  function PageWeights(upload: Upload, topN: int, shortN: int, cap: real): (r: Result<seq<Position>>)
    requires WidgetBounds(topN, shortN, cap)
    ensures r.Err? <==> !HasRequiredColumns(upload.columns)
    ensures r.Err? ==> r.error == MissingColumns
    ensures r.Ok? ==> |r.value| <= 2 * MaxCount
    ensures r.Ok? ==> exists s :: IsSortedPermutation(s, upload.rows) && r.value == Build(s, topN, shortN, cap)
  {
    if !HasRequiredColumns(upload.columns) then Err(MissingColumns)
    else ConstructPortfolio(upload.rows, topN, shortN, cap)
  }

  /** Within the widget bounds the page never reaches a division by zero,
      and every table with both columns gets exactly the result of
      `construct_portfolio` on the same rows. */
  lemma PageAgreesWithConstructor(upload: Upload, topN: int, shortN: int, cap: real)
    requires WidgetBounds(topN, shortN, cap)
    requires HasRequiredColumns(upload.columns)
    ensures ConstructPortfolio(upload.rows, topN, shortN, cap).Ok?
    ensures PageWeights(upload, topN, shortN, cap) == ConstructPortfolio(upload.rows, topN, shortN, cap)
  {
  }

  /** The request body's `predictions` object, as its items in order. */
  function ItemsToRows(items: seq<(string, real)>): (rows: seq<Row>)
    ensures |rows| == |items|
    ensures forall i :: 0 <= i < |items| ==> rows[i] == Row(items[i].0, items[i].1)
  {
    seq(|items|, i requires 0 <= i < |items| => Row(items[i].0, items[i].1))
  }

  /** The keys of a JSON object are distinct. */
  predicate DistinctKeys(items: seq<(string, real)>) {
    forall i, j :: 0 <= i < j < |items| ==> items[i].0 != items[j].0
  }

  /** `POST /portfolio`: the items become a two-column table and go through
      the same steps; `top_n` and `short_n` are not bounded by the request
      model, so a zero count fails with a division by zero. */
  function PortfolioEndpoint(items: seq<(string, real)>, topN: int, shortN: int, cap: real): (r: Result<seq<Position>>)
    requires DistinctKeys(items)
    requires topN >= 0 && shortN >= 0 && cap >= 0.0
    ensures r.Err? <==> topN == 0 || shortN == 0
    ensures r.Err? ==> r.error == ZeroDivision
    ensures r.Ok? ==> |r.value| == Min(topN, |items|) + Min(shortN, |items|)
    ensures r.Ok? ==> exists s :: IsSortedPermutation(s, ItemsToRows(items)) && r.value == Build(s, topN, shortN, cap)
  {
    ConstructPortfolio(ItemsToRows(items), topN, shortN, cap)
  }

  /** With positive counts the endpoint answers, with the result of
      `construct_portfolio` on the request's items; its weights are those
      the construction gives for every descending order of the items. */
  lemma EndpointAgreesWithConstructor(items: seq<(string, real)>, s: seq<Row>, topN: int, shortN: int, cap: real)
    requires DistinctKeys(items)
    requires topN >= 1 && shortN >= 1 && cap >= 0.0
    requires IsSortedPermutation(s, ItemsToRows(items))
    ensures var r := PortfolioEndpoint(items, topN, shortN, cap);
            && r.Ok?
            && r == ConstructPortfolio(ItemsToRows(items), topN, shortN, cap)
            && SameWeights(r.value, Build(s, topN, shortN, cap))
  {
    ConstructAgreesWithEverySort(ItemsToRows(items), s, topN, shortN, cap);
  }

  /** Tickers from an object with distinct keys: each book lists a ticker at
      most once, so no ticker appears more than twice in the response (once
      long, once short, when the books overlap). */
  lemma EndpointTickerAtMostTwice(items: seq<(string, real)>, topN: int, shortN: int, cap: real)
    requires DistinctKeys(items)
    requires topN >= 1 && shortN >= 1 && cap >= 0.0
    ensures var r := PortfolioEndpoint(items, topN, shortN, cap);
            var L := Min(topN, |items|);
            && r.Ok?
            && (forall i, j :: 0 <= i < j < L ==> r.value[i].ticker != r.value[j].ticker)
            && (forall i, j :: L <= i < j < |r.value| ==> r.value[i].ticker != r.value[j].ticker)
            && (forall i, j, k :: 0 <= i < j < k < |r.value| ==>
                  !(r.value[i].ticker == r.value[j].ticker == r.value[k].ticker))
  {
    var rows := ItemsToRows(items);
    var s := SortDesc(rows);
    PermutationKeepsDistinctTickers(s, rows);
  }
}
