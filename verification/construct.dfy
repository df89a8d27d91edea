/**
 The long/short weight constructor (`construct_portfolio`): rank the
 predictions in descending order, go long the first `top_n` rows and short
 the last `short_n` rows of that same order at equal weights, clip every
 weight into [-cap, cap], and rescale each side by its own total.

 `Build` is the computation after the sort and takes any sorted permutation
 of the input, since the source's sort leaves the order of ties open.
 */
module Construct {
  import opened Ranking
  import opened Weights
  import opened Results

  function Min(a: int, b: int): int {
    if a < b then a else b
  }

  function MinReal(a: real, b: real): real {
    if a < b then a else b
  }

  function MaxReal(a: real, b: real): real {
    if a > b then a else b
  }

  /** `df.head(n)`: the first `n` rows, or all of them if there are fewer. */
  function Head(s: seq<Row>, n: nat): (r: seq<Row>)
    ensures |r| == Min(n, |s|)
    ensures forall i :: 0 <= i < |r| ==> r[i] == s[i]
  {
    s[..Min(n, |s|)]
  }

  /** `df.tail(n)`: the last `n` rows, or all of them if there are fewer. */
  function Tail(s: seq<Row>, n: nat): (r: seq<Row>)
    ensures |r| == Min(n, |s|)
    ensures forall i :: 0 <= i < |r| ==> r[i] == s[|s| - |r| + i]
  {
    s[|s| - Min(n, |s|)..]
  }

  /** The rows behind each output position: the long book, then the short book. */
  function Selected(sorted: seq<Row>, topN: nat, shortN: nat): seq<Row> {
    Head(sorted, topN) + Tail(sorted, shortN)
  }

  /** Every row of a book at the same weight. */
  function Book(rows: seq<Row>, w: real): (r: seq<Position>)
    ensures |r| == |rows|
    ensures forall i :: 0 <= i < |rows| ==> r[i] == Position(rows[i].ticker, w)
  {
    seq(|rows|, i requires 0 <= i < |rows| => Position(rows[i].ticker, w))
  }

  /** `1.0 / top_n`: the configured count, not the number of rows selected. */
  function LongWeight(topN: int): (w: real)
    requires topN >= 1
    ensures 0.0 < w <= 1.0
  {
    1.0 / topN as real
  }

  /** `-1.0 / short_n`. */
  function ShortWeight(shortN: int): (w: real)
    requires shortN >= 1
    ensures -1.0 <= w < 0.0
  {
    -1.0 / shortN as real
  }

  /** The equal-weight table before clipping: longs, then shorts. */
  function EqualWeights(sorted: seq<Row>, topN: int, shortN: int): (r: seq<Position>)
    requires topN >= 1 && shortN >= 1
    ensures |r| == Min(topN, |sorted|) + Min(shortN, |sorted|)
    ensures forall i {:trigger r[i]} :: 0 <= i < Min(topN, |sorted|) ==>
              r[i] == Position(sorted[i].ticker, LongWeight(topN))
    ensures forall k {:trigger r[k]} :: Min(topN, |sorted|) <= k < |r| ==>
              r[k] == Position(sorted[|sorted| - |r| + k].ticker, ShortWeight(shortN))
  {
    Book(Head(sorted, topN), LongWeight(topN)) + Book(Tail(sorted, shortN), ShortWeight(shortN))
  }

  /** The table after `clip(-cap, cap)` and before rescaling: each long at
      `min(1/top_n, cap)`, each short at `max(-1/short_n, -cap)`. */
  function Clipped(sorted: seq<Row>, topN: int, shortN: int, cap: real): (r: seq<Position>)
    requires topN >= 1 && shortN >= 1 && cap >= 0.0
    ensures |r| == Min(topN, |sorted|) + Min(shortN, |sorted|)
    ensures forall i {:trigger r[i]} :: 0 <= i < Min(topN, |sorted|) ==>
              r[i] == Position(sorted[i].ticker, MinReal(LongWeight(topN), cap))
    ensures forall k {:trigger r[k]} :: Min(topN, |sorted|) <= k < |r| ==>
              r[k] == Position(sorted[|sorted| - |r| + k].ticker, MaxReal(ShortWeight(shortN), -cap))
  {
    ClipAll(EqualWeights(sorted, topN, shortN), cap)
  }

  /** `a` added to itself `k` times. */
  function Times(k: nat, a: real): (t: real)
    ensures a > 0.0 && k >= 1 ==> t >= a
  {
    if k == 0 then 0.0 else Times(k - 1, a) + a
  }

  lemma {:induction false} TimesIsProduct(k: nat, a: real)
    ensures Times(k, a) == k as real * a
  {
    if k > 0 {
      TimesIsProduct(k - 1, a);
      assert (k - 1) as real * a + a == k as real * a;
    }
  }

  /** `count` longs at `a` followed only by non-positive weights have long total `count * a`. */
  lemma {:induction false} LongTotalUniform(ps: seq<Position>, count: nat, a: real)
    requires count <= |ps|
    requires a >= 0.0
    requires forall i :: 0 <= i < count ==> ps[i].weight == a
    requires forall i :: count <= i < |ps| ==> ps[i].weight <= 0.0
    ensures LongTotal(ps) == Times(count, a)
    decreases |ps|
  {
    if count > 0 {
      var rest := ps[1..];
      assert forall i :: 0 <= i < |rest| ==> rest[i] == ps[i + 1];
      LongTotalUniform(rest, count - 1, a);
    } else {
      TotalZeroIff(ps);
    }
  }

  /** Non-negative weights followed by `count` shorts at `b` have short total `count * -b`. */
  lemma {:induction false} ShortTotalUniform(ps: seq<Position>, count: nat, b: real)
    requires count <= |ps|
    requires b <= 0.0
    requires forall i :: 0 <= i < |ps| - count ==> ps[i].weight >= 0.0
    requires forall i :: |ps| - count <= i < |ps| ==> ps[i].weight == b
    ensures ShortTotal(ps) == Times(count, -b)
    decreases |ps|
  {
    if |ps| > 0 {
      var rest := ps[1..];
      assert forall i :: 0 <= i < |rest| ==> rest[i] == ps[i + 1];
      ShortTotalUniform(rest, if count == |ps| then count - 1 else count, b);
    }
  }

  lemma ShareOfProduct(w: real, n: real)
    requires n >= 1.0 && w > 0.0
    ensures w / (n * w) == 1.0 / n
  {
    var d := n * w;
    var q := 1.0 / n;
    assert q * n == 1.0;
    assert q * d == w by { assert q * d == (q * n) * w; }
  }

  /** One of `count` equal positive weights, divided by their total. */
  lemma EqualShare(w: real, count: nat)
    requires count >= 1 && w > 0.0
    ensures w / Times(count, w) == 1.0 / count as real
  {
    TimesIsProduct(count, w);
    ShareOfProduct(w, count as real);
  }

  /** One of `count` equal negative weights, divided by the magnitude of their total. */
  lemma EqualShareNegative(b: real, count: nat)
    requires count >= 1 && b < 0.0
    ensures b / Times(count, -b) == -1.0 / count as real
  {
    TimesIsProduct(count, -b);
    ShareOfProduct(-b, count as real);
    var d := count as real * -b;
    var q := (-b) / d;
    assert d > 0.0;
    assert q * d == -b;
    assert (-q) * d == b;
    assert b / d == -q;
  }

  /** The weight construction applied to one sorted order of the rows:
      clip the equal weights, then rescale each side by its own total. */
  function Build(sorted: seq<Row>, topN: int, shortN: int, cap: real): (r: seq<Position>)
    requires topN >= 1 && shortN >= 1 && cap >= 0.0
    ensures |r| == Min(topN, |sorted|) + Min(shortN, |sorted|)
    ensures Books(r, sorted, Min(topN, |sorted|))
  {
    ClippedBooks(sorted, topN, shortN, cap);
    NormalizeKeepsBooks(Clipped(sorted, topN, shortN, cap), sorted, Min(topN, |sorted|));
    Normalize(Clipped(sorted, topN, shortN, cap))
  }

  /** `r` is a long book, the first `L` sorted rows at non-negative
      weights, followed by a short book, the last sorted rows at
      non-positive weights. */
  predicate Books(r: seq<Position>, sorted: seq<Row>, L: nat) {
    && L <= |sorted| && L <= |r| <= L + |sorted|
    && (forall i {:trigger r[i]} :: 0 <= i < L ==> r[i].ticker == sorted[i].ticker && r[i].weight >= 0.0)
    && (forall k {:trigger r[k]} :: L <= k < |r| ==>
          r[k].ticker == sorted[|sorted| - |r| + k].ticker && r[k].weight <= 0.0)
  }

  /** Rescaling keeps every position's ticker and which book it is in. */
  lemma NormalizeKeepsBooks(c: seq<Position>, sorted: seq<Row>, L: nat)
    requires Books(c, sorted, L)
    ensures Books(Normalize(c), sorted, L)
  {
  }

  /** Before rescaling the rows are already laid out as the two books. */
  lemma ClippedBooks(sorted: seq<Row>, topN: int, shortN: int, cap: real)
    requires topN >= 1 && shortN >= 1 && cap >= 0.0
    ensures Books(Clipped(sorted, topN, shortN, cap), sorted, Min(topN, |sorted|))
  {
  }

  /** With a positive cap every long ends at `1/min(top_n, n)` and every
      short at `-1/min(short_n, n)`: the cap has no effect on the result. */
  lemma FinalWeightsIgnoreCap(sorted: seq<Row>, topN: int, shortN: int, cap: real)
    requires topN >= 1 && shortN >= 1 && cap > 0.0
    ensures var r := Build(sorted, topN, shortN, cap);
            && (forall i :: 0 <= i < Min(topN, |sorted|) ==>
                  r[i].weight == 1.0 / Min(topN, |sorted|) as real)
            && (forall k :: Min(topN, |sorted|) <= k < |r| ==>
                  r[k].weight == -1.0 / Min(shortN, |sorted|) as real)
  {
    if |sorted| > 0 {
      var clipped := Clipped(sorted, topN, shortN, cap);
      var L, S := Min(topN, |sorted|), Min(shortN, |sorted|);
      var a, b := MinReal(LongWeight(topN), cap), MaxReal(ShortWeight(shortN), -cap);
      LongTotalUniform(clipped, L, a);
      ShortTotalUniform(clipped, S, b);
      EqualShare(a, L);
      EqualShareNegative(b, S);
    }
  }

  /** Whenever there is a row and a positive cap, the positive weights sum to
      exactly 1 and the negative weights to exactly -1. */
  lemma SidesSumToOne(sorted: seq<Row>, topN: int, shortN: int, cap: real)
    requires topN >= 1 && shortN >= 1 && cap > 0.0
    requires |sorted| > 0
    ensures LongTotal(Build(sorted, topN, shortN, cap)) == 1.0
    ensures ShortTotal(Build(sorted, topN, shortN, cap)) == 1.0
  {
    var c := Clipped(sorted, topN, shortN, cap);
    assert Build(sorted, topN, shortN, cap) == Normalize(c);
    assert c[0].weight > 0.0;
    assert c[|c| - 1].weight < 0.0;
    TotalZeroIff(c);
    NormalizeSideTotals(c);
  }

  /** A zero cap clips every weight to zero; both totals are then zero and
      neither rescaling divides. */
  lemma ZeroCapGivesZeroWeights(sorted: seq<Row>, topN: int, shortN: int)
    requires topN >= 1 && shortN >= 1
    ensures var r := Build(sorted, topN, shortN, 0.0);
            && (forall i :: 0 <= i < |r| ==> r[i].weight == 0.0)
            && LongTotal(r) == 0.0 && ShortTotal(r) == 0.0
  {
    var c := Clipped(sorted, topN, shortN, 0.0);
    assert Build(sorted, topN, shortN, 0.0) == Normalize(c);
    assert forall i :: 0 <= i < |c| ==> c[i].weight == 0.0;
    TotalZeroIff(c);
    NormalizeSideTotals(c);
    NormalizeDividesBySideTotal(c);
  }

  /** The weights depend on the number of rows only: which rows were
      selected, and so the order chosen among tied predictions, changes the
      tickers but never a weight. */
  lemma WeightsDependOnCountOnly(s: seq<Row>, t: seq<Row>, topN: int, shortN: int, cap: real)
    requires topN >= 1 && shortN >= 1 && cap >= 0.0
    requires |s| == |t|
    ensures SameWeights(Build(s, topN, shortN, cap), Build(t, topN, shortN, cap))
  {
    var cs, ct := Clipped(s, topN, shortN, cap), Clipped(t, topN, shortN, cap);
    assert SameWeights(cs, ct);
    NormalizeDependsOnWeightsOnly(cs, ct);
  }

  /** Rows that agree on the prediction in every place select the same
      predictions into the two books. */
  lemma SelectedPredictionsAgree(s: seq<Row>, t: seq<Row>, topN: nat, shortN: nat)
    requires |s| == |t|
    requires forall i :: 0 <= i < |s| ==> s[i].prediction == t[i].prediction
    ensures Predictions(Selected(s, topN, shortN)) == Predictions(Selected(t, topN, shortN))
  {
    var hs, ht := Head(s, topN), Head(t, topN);
    var ts, tt := Tail(s, shortN), Tail(t, shortN);
    assert Predictions(hs) == Predictions(ht);
    assert Predictions(ts) == Predictions(tt);
    var a, b := Selected(s, topN, shortN), Selected(t, topN, shortN);
    assert |a| == |b|;
    forall i | 0 <= i < |a|
      ensures a[i].prediction == b[i].prediction
    {
      if i < |hs| {
        assert a[i] == hs[i] && b[i] == ht[i];
      } else {
        assert a[i] == ts[i - |hs|] && b[i] == tt[i - |hs|];
      }
    }
  }

  /** Two descending sorts of the same rows may order tied rows differently;
      the results have the same weights, the same prediction behind every
      position, and, when no two predictions tie, are identical. */
  lemma TieOrderIrrelevant(s: seq<Row>, t: seq<Row>, rows: seq<Row>, topN: int, shortN: int, cap: real)
    requires topN >= 1 && shortN >= 1 && cap >= 0.0
    requires IsSortedPermutation(s, rows) && IsSortedPermutation(t, rows)
    ensures SameWeights(Build(s, topN, shortN, cap), Build(t, topN, shortN, cap))
    ensures Predictions(Selected(s, topN, shortN)) == Predictions(Selected(t, topN, shortN))
    ensures DistinctPredictions(rows) ==> Build(s, topN, shortN, cap) == Build(t, topN, shortN, cap)
  {
    SortedPermutationsAgree(s, t, rows);
    WeightsDependOnCountOnly(s, t, topN, shortN, cap);
    SelectedPredictionsAgree(s, t, topN, shortN);
    if DistinctPredictions(rows) {
      SortedPermutationUnique(s, t, rows);
    }
  }

  /** `construct_portfolio` after reading the table: sort by prediction,
      descending, and build the weights. `1.0 / top_n` and `-1.0 / short_n`
      raise on a zero count before any weight exists. */
  function ConstructPortfolio(rows: seq<Row>, topN: int, shortN: int, cap: real): (r: Result<seq<Position>>)
    requires topN >= 0 && shortN >= 0 && cap >= 0.0
    ensures r.Err? <==> topN == 0 || shortN == 0
    ensures r.Err? ==> r.error == ZeroDivision
    ensures r.Ok? ==> |r.value| == Min(topN, |rows|) + Min(shortN, |rows|)
    ensures r.Ok? ==> exists s :: IsSortedPermutation(s, rows) && r.value == Build(s, topN, shortN, cap)
  {
    if topN == 0 || shortN == 0 then Err(ZeroDivision)
    else
      var sorted := SortDesc(rows);
      Ok(Build(sorted, topN, shortN, cap))
  }

  /** Every ticker of the result is a ticker of the input. */
  lemma ConstructTickersFromInput(rows: seq<Row>, topN: int, shortN: int, cap: real)
    requires topN >= 0 && shortN >= 0 && cap >= 0.0
    ensures var r := ConstructPortfolio(rows, topN, shortN, cap);
            r.Ok? ==> forall k :: 0 <= k < |r.value| ==> exists j :: 0 <= j < |rows| && rows[j].ticker == r.value[k].ticker
  {
    var r := ConstructPortfolio(rows, topN, shortN, cap);
    if r.Ok? {
      var s := SortDesc(rows);
      PermutationMembers(s, rows);
      var L := Min(topN, |s|);
      forall k | 0 <= k < |r.value|
        ensures exists j :: 0 <= j < |rows| && rows[j].ticker == r.value[k].ticker
      {
        var m := if k < L then k else |s| - |r.value| + k;
        assert r.value[k].ticker == s[m].ticker;
        var j :| 0 <= j < |rows| && rows[j] == s[m];
      }
    }
  }

  /** Whatever the descending order, the result reports exactly the same
      weights, so a result is pinned down up to the tickers of tied rows. */
  lemma ConstructAgreesWithEverySort(rows: seq<Row>, s: seq<Row>, topN: int, shortN: int, cap: real)
    requires topN >= 1 && shortN >= 1 && cap >= 0.0
    requires IsSortedPermutation(s, rows)
    ensures var r := ConstructPortfolio(rows, topN, shortN, cap);
            r.Ok? && SameWeights(r.value, Build(s, topN, shortN, cap))
  {
    TieOrderIrrelevant(SortDesc(rows), s, rows, topN, shortN, cap);
  }

  /** Every row that both windows of `sorted` select (the long window is the
      first `L` rows, the short one the last `S`) is listed twice in `r`: at
      `j` in the long book and at `L + j - (|sorted| - S)` in the short book,
      the first positive and the second negative when `strict`. The table
      has one row per selected row, `L + S`, with nothing merged. */
  predicate SharedRowsTwice(r: seq<Position>, sorted: seq<Row>, L: nat, S: nat, strict: bool) {
    && L <= |sorted| && S <= |sorted| && |r| == L + S
    && forall j {:trigger r[j]} :: |sorted| - S <= j < L ==>
         && r[L + j - (|sorted| - S)].ticker == r[j].ticker
         && (strict ==> r[j].weight > 0.0 && r[L + j - (|sorted| - S)].weight < 0.0)
  }

  /** A table laid out as the two books of `sorted` lists every row the two
      windows share twice, long first. */
  lemma SharedRowsListedTwice(r: seq<Position>, sorted: seq<Row>, L: nat, S: nat, strict: bool)
    requires L <= |sorted| && S <= |sorted| && |r| == L + S
    requires forall i {:trigger r[i]} :: 0 <= i < L ==>
               r[i].ticker == sorted[i].ticker && (strict ==> r[i].weight > 0.0)
    requires forall k {:trigger r[k]} :: L <= k < |r| ==>
               r[k].ticker == sorted[|sorted| - |r| + k].ticker && (strict ==> r[k].weight < 0.0)
    ensures SharedRowsTwice(r, sorted, L, S, strict)
  {
    forall j | |sorted| - S <= j < L
      ensures r[L + j - (|sorted| - S)].ticker == r[j].ticker
    {
      var k := L + j - (|sorted| - S);
      assert |sorted| - |r| + k == j;
    }
  }

  /** When `top_n + short_n` exceeds the number of rows the two books share
      rows, and each shared row is listed twice: once in the long book and
      once in the short book, with opposite signs when the cap is positive. */
  lemma OverlapNotDeduplicated(sorted: seq<Row>, topN: int, shortN: int, cap: real)
    requires topN >= 1 && shortN >= 1 && cap >= 0.0
    ensures SharedRowsTwice(Build(sorted, topN, shortN, cap), sorted,
                            Min(topN, |sorted|), Min(shortN, |sorted|), cap > 0.0)
  {
    StrictBooks(sorted, topN, shortN, cap);
    SharedRowsListedTwice(Build(sorted, topN, shortN, cap), sorted,
                          Min(topN, |sorted|), Min(shortN, |sorted|), cap > 0.0);
  }

  /** The books of the output, with strict signs when the cap is positive. */
  lemma StrictBooks(sorted: seq<Row>, topN: int, shortN: int, cap: real)
    requires topN >= 1 && shortN >= 1 && cap >= 0.0
    ensures var r, L := Build(sorted, topN, shortN, cap), Min(topN, |sorted|);
            && (forall i {:trigger r[i]} :: 0 <= i < L ==>
                  r[i].ticker == sorted[i].ticker && (cap > 0.0 ==> r[i].weight > 0.0))
            && (forall k {:trigger r[k]} :: L <= k < |r| ==>
                  r[k].ticker == sorted[|sorted| - |r| + k].ticker && (cap > 0.0 ==> r[k].weight < 0.0))
  {
    StrictSigns(sorted, topN, shortN, cap);
  }

  /** With a positive cap no weight is clipped to zero, so every long ends
      positive and every short negative. */
  lemma StrictSigns(sorted: seq<Row>, topN: int, shortN: int, cap: real)
    requires topN >= 1 && shortN >= 1 && cap >= 0.0
    ensures var r := Build(sorted, topN, shortN, cap);
            cap > 0.0 ==>
              && (forall i {:trigger r[i]} :: 0 <= i < Min(topN, |sorted|) ==> r[i].weight > 0.0)
              && (forall k {:trigger r[k]} :: Min(topN, |sorted|) <= k < |r| ==> r[k].weight < 0.0)
  {
    var c := Clipped(sorted, topN, shortN, cap);
    var r := Build(sorted, topN, shortN, cap);
    assert r == Normalize(c);
    if cap > 0.0 {
      forall i | 0 <= i < Min(topN, |sorted|)
        ensures r[i].weight > 0.0
      {
        assert c[i].weight > 0.0;
      }
      forall k | Min(topN, |sorted|) <= k < |r|
        ensures r[k].weight < 0.0
      {
        assert c[k].weight < 0.0;
      }
    }
  }

  /** A cap below the equal share `1/min(top_n, n)` does not bound the
      output: clipping happens before rescaling, and rescaling restores the
      equal share. Only the clipped intermediate table respects the cap. */
  lemma CapDoesNotBoundFinalWeights(sorted: seq<Row>, topN: int, shortN: int, cap: real)
    requires topN >= 1 && shortN >= 1 && cap > 0.0 && |sorted| >= 1
    requires cap < 1.0 / Min(topN, |sorted|) as real
    ensures forall i :: 0 <= i < |Clipped(sorted, topN, shortN, cap)| ==>
              -cap <= Clipped(sorted, topN, shortN, cap)[i].weight <= cap
    ensures Build(sorted, topN, shortN, cap)[0].weight > cap
  {
    FinalWeightsIgnoreCap(sorted, topN, shortN, cap);
  }

  /** The result when no two predictions tie is the weights built on the
      rows in descending order, so any listing of those rows in that order
      determines it. */
  lemma ConstructOnSortedRows(rows: seq<Row>, topN: int, shortN: int, cap: real)
    requires topN >= 1 && shortN >= 1 && cap >= 0.0
    requires SortedDesc(rows) && DistinctPredictions(rows)
    ensures ConstructPortfolio(rows, topN, shortN, cap) == Ok(Build(rows, topN, shortN, cap))
  {
    SortedPermutationUnique(SortDesc(rows), rows, rows);
  }

  /** Two long and two short from at least two rows, under any positive
      cap: the first two rows at `0.5`, the last two at `-0.5`. */
  lemma TwoLongTwoShort(rows: seq<Row>, cap: real)
    requires |rows| >= 2 && cap > 0.0
    ensures Build(rows, 2, 2, cap)
            == [Position(rows[0].ticker, 0.5), Position(rows[1].ticker, 0.5),
                Position(rows[|rows| - 2].ticker, -0.5), Position(rows[|rows| - 1].ticker, -0.5)]
  {
    FinalWeightsIgnoreCap(rows, 2, 2, cap);
    var r := Build(rows, 2, 2, cap);
    assert r[0] == Position(rows[0].ticker, 0.5);
    assert r[1] == Position(rows[1].ticker, 0.5);
    assert r[2] == Position(rows[|rows| - 2].ticker, -0.5);
    assert r[3] == Position(rows[|rows| - 1].ticker, -0.5);
    assert r == [r[0], r[1], r[2], r[3]];
  }

  /** Three rows with two long and two short: the middle row is in both
      books, at `0.5` and at `-0.5`, and is not merged. */
  lemma OverlapOfThree(rows: seq<Row>, cap: real)
    requires |rows| == 3 && SortedDesc(rows) && DistinctPredictions(rows) && cap > 0.0
    ensures ConstructPortfolio(rows, 2, 2, cap)
            == Ok([Position(rows[0].ticker, 0.5), Position(rows[1].ticker, 0.5),
                   Position(rows[1].ticker, -0.5), Position(rows[2].ticker, -0.5)])
  {
    ConstructOnSortedRows(rows, 2, 2, cap);
    TwoLongTwoShort(rows, cap);
  }

  /** Five rows in descending order, two long and two short: the books do
      not meet and each side is split evenly. */
  lemma FiveDisjointBooks(rows: seq<Row>, cap: real)
    requires |rows| == 5 && SortedDesc(rows) && DistinctPredictions(rows) && cap > 0.0
    ensures ConstructPortfolio(rows, 2, 2, cap)
            == Ok([Position(rows[0].ticker, 0.5), Position(rows[1].ticker, 0.5),
                   Position(rows[3].ticker, -0.5), Position(rows[4].ticker, -0.5)])
  {
    ConstructOnSortedRows(rows, 2, 2, cap);
    TwoLongTwoShort(rows, cap);
  }

  /** `A:0.9, B:0.5, C:0.1, D:-0.2, E:-0.9` with two long, two short and a
      cap of `0.5`. */
  lemma ExampleFiveNames()
    ensures ConstructPortfolio(
              [Row("A", 0.9), Row("B", 0.5), Row("C", 0.1), Row("D", -0.2), Row("E", -0.9)], 2, 2, 0.5)
            == Ok([Position("A", 0.5), Position("B", 0.5), Position("D", -0.5), Position("E", -0.5)])
  {
    FiveDisjointBooks([Row("A", 0.9), Row("B", 0.5), Row("C", 0.1), Row("D", -0.2), Row("E", -0.9)], 0.5);
  }

  /** `A:0.9, B:0.5, C:0.1` with two long, two short and a cap of `1.0`:
      `B` ends at `0.5` long and `-0.5` short. */
  lemma ExampleOverlap()
    ensures ConstructPortfolio([Row("A", 0.9), Row("B", 0.5), Row("C", 0.1)], 2, 2, 1.0)
            == Ok([Position("A", 0.5), Position("B", 0.5), Position("B", -0.5), Position("C", -0.5)])
  {
    OverlapOfThree([Row("A", 0.9), Row("B", 0.5), Row("C", 0.1)], 1.0);
  }
}
