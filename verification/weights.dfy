/**
 The weight column of a constructed portfolio and the two passes the
 constructor makes over it: clipping every weight into [-cap, cap], then
 rescaling the positive weights by their own total and the negative weights
 by theirs. Weights are exact reals, so "sums to one" holds exactly.
 */
module Weights {

  /** One output record, `{Ticker, Weight}`. */
  datatype Position = Position(ticker: string, weight: real)

  /** `Series.clip(-cap, cap)` on one value. */
  function Clip(w: real, cap: real): (r: real)
    requires cap >= 0.0
    ensures -cap <= r <= cap
    ensures -cap <= w <= cap ==> r == w
    ensures w > cap ==> r == cap
    ensures w < -cap ==> r == -cap
  {
    if w < -cap then -cap else if w > cap then cap else w
  }

  /** Clips every weight, keeping tickers and order. */
  function ClipAll(ps: seq<Position>, cap: real): (r: seq<Position>)
    requires cap >= 0.0
    ensures |r| == |ps|
    ensures forall i :: 0 <= i < |ps| ==> r[i].ticker == ps[i].ticker
    ensures forall i :: 0 <= i < |ps| ==> -cap <= r[i].weight <= cap
    ensures forall i :: 0 <= i < |ps| && -cap <= ps[i].weight <= cap ==> r[i].weight == ps[i].weight
    ensures forall i :: 0 <= i < |ps| ==> r[i].weight == Clip(ps[i].weight, cap)
  {
    seq(|ps|, i requires 0 <= i < |ps| => Position(ps[i].ticker, Clip(ps[i].weight, cap)))
  }

  /** The part of a weight that counts towards the long total. */
  function PositivePart(w: real): real {
    if w > 0.0 then w else 0.0
  }

  /** The part of a weight that counts towards the short total (as a magnitude). */
  function NegativePart(w: real): real {
    if w < 0.0 then -w else 0.0
  }

  /** Sum of the positive weights (`total_long`). */
  function LongTotal(ps: seq<Position>): (t: real)
    ensures t >= 0.0
  {
    if |ps| == 0 then 0.0 else PositivePart(ps[0].weight) + LongTotal(ps[1..])
  }

  /** Minus the sum of the negative weights (`total_short`). */
  function ShortTotal(ps: seq<Position>): (t: real)
    ensures t >= 0.0
  {
    if |ps| == 0 then 0.0 else NegativePart(ps[0].weight) + ShortTotal(ps[1..])
  }

  /** A side's total is zero exactly when the table holds no weight of that
      sign, so the `> 0` guards skip precisely the empty sides. */
  lemma {:induction false} TotalZeroIff(ps: seq<Position>)
    ensures LongTotal(ps) == 0.0 <==> forall i :: 0 <= i < |ps| ==> ps[i].weight <= 0.0
    ensures ShortTotal(ps) == 0.0 <==> forall i :: 0 <= i < |ps| ==> ps[i].weight >= 0.0
    decreases |ps|
  {
    if |ps| > 0 {
      TotalZeroIff(ps[1..]);
      assert forall i :: 1 <= i < |ps| ==> ps[i] == ps[1..][i - 1];
    }
  }

  /** Both totals are additive over concatenation. */
  lemma {:induction false} TotalsConcat(a: seq<Position>, b: seq<Position>)
    ensures LongTotal(a + b) == LongTotal(a) + LongTotal(b)
    ensures ShortTotal(a + b) == ShortTotal(a) + ShortTotal(b)
    decreases |a|
  {
    if |a| > 0 {
      assert (a + b)[0] == a[0];
      assert (a + b)[1..] == a[1..] + b;
      TotalsConcat(a[1..], b);
    } else {
      assert a + b == b;
    }
  }

  lemma DivideSum(x: real, y: real, sum: real, total: real)
    requires total > 0.0
    requires sum == x + y
    ensures x / total + y / total == sum / total
  {
  }

  lemma SelfDivide(x: real)
    requires x > 0.0
    ensures x / x == 1.0
  {
  }

  lemma DivideParts(w: real, total: real)
    requires total > 0.0
    ensures PositivePart(if w > 0.0 then w / total else w) == PositivePart(w) / total
    ensures NegativePart(if w > 0.0 then w / total else w) == NegativePart(w)
    ensures NegativePart(if w < 0.0 then w / total else w) == NegativePart(w) / total
    ensures PositivePart(if w < 0.0 then w / total else w) == PositivePart(w)
  {
    if w > 0.0 {
      assert w / total > 0.0;
    } else if w < 0.0 {
      assert w / total < 0.0;
    }
  }

  /** `weights.loc[weights > 0] /= total`: positive weights are divided,
      every other weight is left as it was. */
  function RescaleLong(ps: seq<Position>, total: real): (r: seq<Position>)
    requires total > 0.0
    ensures |r| == |ps|
    ensures forall i :: 0 <= i < |ps| ==> r[i].ticker == ps[i].ticker
    ensures forall i :: 0 <= i < |ps| && ps[i].weight > 0.0 ==> r[i].weight == ps[i].weight / total
    ensures forall i :: 0 <= i < |ps| && ps[i].weight <= 0.0 ==> r[i].weight == ps[i].weight
    ensures forall i :: 0 <= i < |ps| ==> (r[i].weight > 0.0 <==> ps[i].weight > 0.0)
  {
    if |ps| == 0 then []
    else
      var w := ps[0].weight;
      DivideParts(w, total);
      [Position(ps[0].ticker, if w > 0.0 then w / total else w)] + RescaleLong(ps[1..], total)
  }

  /** `weights.loc[weights < 0] /= total`: negative weights are divided,
      every other weight is left as it was. */
  function RescaleShort(ps: seq<Position>, total: real): (r: seq<Position>)
    requires total > 0.0
    ensures |r| == |ps|
    ensures forall i :: 0 <= i < |ps| ==> r[i].ticker == ps[i].ticker
    ensures forall i :: 0 <= i < |ps| && ps[i].weight < 0.0 ==> r[i].weight == ps[i].weight / total
    ensures forall i :: 0 <= i < |ps| && ps[i].weight >= 0.0 ==> r[i].weight == ps[i].weight
    ensures forall i :: 0 <= i < |ps| ==> (r[i].weight < 0.0 <==> ps[i].weight < 0.0)
  {
    if |ps| == 0 then []
    else
      var w := ps[0].weight;
      DivideParts(w, total);
      [Position(ps[0].ticker, if w < 0.0 then w / total else w)] + RescaleShort(ps[1..], total)
  }

  /** Dividing the long side by `total` divides the long total by it and
      leaves the short total alone. */
  lemma {:induction false} RescaleLongTotals(ps: seq<Position>, total: real)
    requires total > 0.0
    ensures LongTotal(RescaleLong(ps, total)) == LongTotal(ps) / total
    ensures ShortTotal(RescaleLong(ps, total)) == ShortTotal(ps)
    decreases |ps|
  {
    if |ps| > 0 {
      var r := RescaleLong(ps, total);
      assert r[1..] == RescaleLong(ps[1..], total);
      RescaleLongTotals(ps[1..], total);
      var w := ps[0].weight;
      assert r[0].weight == if w > 0.0 then w / total else w;
      DivideParts(w, total);
      assert LongTotal(r) == PositivePart(w) / total + LongTotal(ps[1..]) / total;
      DivideSum(PositivePart(w), LongTotal(ps[1..]), LongTotal(ps), total);
    } else {
      assert 0.0 / total == 0.0;
    }
  }

  /** Dividing the short side by `total` divides the short total by it and
      leaves the long total alone. */
  lemma {:induction false} RescaleShortTotals(ps: seq<Position>, total: real)
    requires total > 0.0
    ensures ShortTotal(RescaleShort(ps, total)) == ShortTotal(ps) / total
    ensures LongTotal(RescaleShort(ps, total)) == LongTotal(ps)
    decreases |ps|
  {
    if |ps| > 0 {
      var r := RescaleShort(ps, total);
      assert r[1..] == RescaleShort(ps[1..], total);
      RescaleShortTotals(ps[1..], total);
      DivideParts(ps[0].weight, total);
      DivideSum(NegativePart(ps[0].weight), ShortTotal(ps[1..]), ShortTotal(ps), total);
    } else {
      assert 0.0 / total == 0.0;
    }
  }

  /** `if total_long > 0: weights.loc[weights > 0] /= total_long`, with
      `total_long` taken before either side is touched. */
  function LongPass(ps: seq<Position>, totalLong: real): (r: seq<Position>)
    requires totalLong == LongTotal(ps)
    ensures |r| == |ps|
    ensures forall i :: 0 <= i < |ps| ==> r[i].ticker == ps[i].ticker
    ensures forall i :: 0 <= i < |ps| ==> (r[i].weight > 0.0 <==> ps[i].weight > 0.0)
    ensures totalLong > 0.0 ==> forall i :: 0 <= i < |ps| && ps[i].weight > 0.0 ==> r[i].weight == ps[i].weight / totalLong
    ensures forall i :: 0 <= i < |ps| && ps[i].weight <= 0.0 ==> r[i].weight == ps[i].weight
    ensures totalLong == 0.0 ==> r == ps
    ensures LongTotal(r) == if totalLong > 0.0 then 1.0 else 0.0
    ensures ShortTotal(r) == ShortTotal(ps)
  {
    if totalLong > 0.0 then
      RescaleLongTotals(ps, totalLong);
      SelfDivide(totalLong);
      RescaleLong(ps, totalLong)
    else
      ps
  }

  /** `if total_short > 0: weights.loc[weights < 0] /= total_short`. */
  function ShortPass(ps: seq<Position>, totalShort: real): (r: seq<Position>)
    requires totalShort == ShortTotal(ps)
    ensures |r| == |ps|
    ensures forall i :: 0 <= i < |ps| ==> r[i].ticker == ps[i].ticker
    ensures forall i :: 0 <= i < |ps| ==> (r[i].weight < 0.0 <==> ps[i].weight < 0.0)
    ensures totalShort > 0.0 ==> forall i :: 0 <= i < |ps| && ps[i].weight < 0.0 ==> r[i].weight == ps[i].weight / totalShort
    ensures forall i :: 0 <= i < |ps| && ps[i].weight >= 0.0 ==> r[i].weight == ps[i].weight
    ensures totalShort == 0.0 ==> r == ps
    ensures ShortTotal(r) == if totalShort > 0.0 then 1.0 else 0.0
    ensures LongTotal(r) == LongTotal(ps)
  {
    if totalShort > 0.0 then
      RescaleShortTotals(ps, totalShort);
      SelfDivide(totalShort);
      RescaleShort(ps, totalShort)
    else
      ps
  }

  /** What the two guarded rescalings do to one weight, given the totals
      taken before either of them. */
  function Scale(w: real, totalLong: real, totalShort: real): real {
    if w > 0.0 && totalLong > 0.0 then w / totalLong
    else if w < 0.0 && totalShort > 0.0 then w / totalShort
    else w
  }

  /** Both totals are taken first; then, each guarded by `> 0`, the long side
      and the short side are rescaled. The passes touch disjoint positions,
      so the result is stated position by position (`TwoPassesAgree` relates
      it to the two passes in the order the source runs them). Rescaling
      keeps tickers, order and every weight's sign. */
  function Normalize(ps: seq<Position>): (r: seq<Position>)
    ensures |r| == |ps|
    ensures forall i :: 0 <= i < |ps| ==> r[i].ticker == ps[i].ticker
    ensures forall i :: 0 <= i < |ps| ==> (r[i].weight > 0.0 <==> ps[i].weight > 0.0)
    ensures forall i :: 0 <= i < |ps| ==> (r[i].weight < 0.0 <==> ps[i].weight < 0.0)
  {
    var totalLong := LongTotal(ps);
    var totalShort := ShortTotal(ps);
    seq(|ps|, i requires 0 <= i < |ps| => Position(ps[i].ticker, Scale(ps[i].weight, totalLong, totalShort)))
  }

  /** Rescaling the long side and then the short side, in place, gives the
      position-by-position result. */
  lemma TwoPassesAgree(ps: seq<Position>)
    ensures ShortPass(LongPass(ps, LongTotal(ps)), ShortTotal(ps)) == Normalize(ps)
  {
    var afterLong := LongPass(ps, LongTotal(ps));
    assert ShortTotal(afterLong) == ShortTotal(ps);
    var r := ShortPass(afterLong, ShortTotal(ps));
    var n := Normalize(ps);
    forall i | 0 <= i < |ps|
      ensures r[i] == n[i]
    {
    }
  }

  /** Each side is divided by its own total taken before either rescaling;
      zero weights stay zero. */
  lemma NormalizeDividesBySideTotal(ps: seq<Position>)
    ensures var r := Normalize(ps);
            && (forall i :: 0 <= i < |ps| && ps[i].weight > 0.0 ==>
                  LongTotal(ps) > 0.0 && r[i].weight == ps[i].weight / LongTotal(ps))
            && (forall i :: 0 <= i < |ps| && ps[i].weight < 0.0 ==>
                  ShortTotal(ps) > 0.0 && r[i].weight == ps[i].weight / ShortTotal(ps))
            && (forall i :: 0 <= i < |ps| && ps[i].weight == 0.0 ==> r[i].weight == 0.0)
  {
    var r := Normalize(ps);
    var totalLong, totalShort := LongTotal(ps), ShortTotal(ps);
    TotalZeroIff(ps);
    forall i | 0 <= i < |ps|
      ensures r[i].weight == Scale(ps[i].weight, totalLong, totalShort)
    {
    }
    forall i | 0 <= i < |ps| && ps[i].weight > 0.0
      ensures totalLong > 0.0
    {
      assert !(forall j :: 0 <= j < |ps| ==> ps[j].weight <= 0.0);
    }
    forall i | 0 <= i < |ps| && ps[i].weight < 0.0
      ensures totalShort > 0.0
    {
      assert !(forall j :: 0 <= j < |ps| ==> ps[j].weight >= 0.0);
    }
  }

  /** A side holding any weight ends at total exactly one; an empty side
      stays at zero. Each rescaling leaves the other side's total alone. */
  lemma NormalizeSideTotals(ps: seq<Position>)
    ensures LongTotal(ps) > 0.0 ==> LongTotal(Normalize(ps)) == 1.0
    ensures ShortTotal(ps) > 0.0 ==> ShortTotal(Normalize(ps)) == 1.0
    ensures LongTotal(ps) == 0.0 ==> LongTotal(Normalize(ps)) == 0.0
    ensures ShortTotal(ps) == 0.0 ==> ShortTotal(Normalize(ps)) == 0.0
  {
    TwoPassesAgree(ps);
    var afterLong := LongPass(ps, LongTotal(ps));
    assert ShortTotal(afterLong) == ShortTotal(ps);
  }

  /** Two tables with the same weights in the same order, whatever their
      tickers. */
  predicate SameWeights(a: seq<Position>, b: seq<Position>) {
    |a| == |b| && forall i :: 0 <= i < |a| ==> a[i].weight == b[i].weight
  }

  /** The totals read only the weights. */
  lemma {:induction false} TotalsDependOnWeightsOnly(a: seq<Position>, b: seq<Position>)
    requires SameWeights(a, b)
    ensures LongTotal(a) == LongTotal(b) && ShortTotal(a) == ShortTotal(b)
    decreases |a|
  {
    if |a| > 0 {
      assert SameWeights(a[1..], b[1..]) by {
        assert forall i :: 0 <= i < |a| - 1 ==> a[1..][i] == a[i + 1] && b[1..][i] == b[i + 1];
      }
      TotalsDependOnWeightsOnly(a[1..], b[1..]);
    }
  }

  /** Rescaling reads only the weights: tables with the same weights end
      with the same weights. */
  lemma NormalizeDependsOnWeightsOnly(a: seq<Position>, b: seq<Position>)
    requires SameWeights(a, b)
    ensures SameWeights(Normalize(a), Normalize(b))
  {
    TotalsDependOnWeightsOnly(a, b);
  }
}
