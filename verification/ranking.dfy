/**
 Ranking of the predictions table: the rows, the descending order that
 `sort_values(by="Prediction", ascending=False)` produces, and what that
 order determines. pandas sorts with an unstable algorithm by default, so the
 order among equal predictions is not specified; the model therefore states
 the sort relationally (a sorted permutation) and proves that the
 predictions in every slot do not depend on which sorted permutation was
 chosen.
 */
module Ranking {

  /** One line of the predictions table. */
  datatype Row = Row(ticker: string, prediction: real)

  /** Non-increasing order of prediction. */
  predicate SortedDesc(s: seq<Row>) {
    forall i, j :: 0 <= i < j < |s| ==> s[i].prediction >= s[j].prediction
  }

  /** `s` is an order that a descending sort of `rows` may return. */
  predicate IsSortedPermutation(s: seq<Row>, rows: seq<Row>) {
    multiset(s) == multiset(rows) && SortedDesc(s)
  }

  /** No ticker occurs twice (a dict's keys, for instance). */
  predicate DistinctTickers(rows: seq<Row>) {
    forall i, j :: 0 <= i < j < |rows| ==> rows[i].ticker != rows[j].ticker
  }

  /** No prediction value occurs twice, so there are no ties to break. */
  predicate DistinctPredictions(rows: seq<Row>) {
    forall i, j :: 0 <= i < j < |rows| ==> rows[i].prediction != rows[j].prediction
  }

  /** The prediction column of a table. */
  function Predictions(s: seq<Row>): (p: seq<real>)
    ensures |p| == |s|
    ensures forall i :: 0 <= i < |s| ==> p[i] == s[i].prediction
  {
    seq(|s|, i requires 0 <= i < |s| => s[i].prediction)
  }

  /** Places `x` before the first row whose prediction does not exceed it. */
  function Insert(x: Row, s: seq<Row>): (r: seq<Row>)
    requires SortedDesc(s)
    ensures multiset(r) == multiset(s) + multiset{x}
    ensures |r| == |s| + 1
    ensures r[0] == x || (|s| > 0 && r[0] == s[0])
    ensures SortedDesc(r)
  {
    if |s| == 0 then [x]
    else if x.prediction >= s[0].prediction then [x] + s
    else
      assert s == [s[0]] + s[1..];
      [s[0]] + Insert(x, s[1..])
  }

  /** One concrete descending sort (insertion sort). Any other sorted
      permutation is an equally valid result of the source's sort. */
  function SortDesc(rows: seq<Row>): (s: seq<Row>)
    ensures IsSortedPermutation(s, rows)
    ensures |s| == |rows|
  {
    if |rows| == 0 then []
    else
      assert rows == [rows[0]] + rows[1..];
      Insert(rows[0], SortDesc(rows[1..]))
  }

  /** Every row of a permutation of `rows` is a row of `rows`. */
  lemma PermutationMembers(s: seq<Row>, rows: seq<Row>)
    requires multiset(s) == multiset(rows)
    ensures forall k :: 0 <= k < |s| ==> exists j :: 0 <= j < |rows| && rows[j] == s[k]
  {
    forall k | 0 <= k < |s|
      ensures exists j :: 0 <= j < |rows| && rows[j] == s[k]
    {
      assert s[k] in s;
      assert s[k] in multiset(s);
      assert s[k] in multiset(rows);
      assert s[k] in rows;
    }
  }

  lemma PredictionsConcat(a: seq<Row>, b: seq<Row>)
    ensures Predictions(a + b) == Predictions(a) + Predictions(b)
  {
  }

  /** Removing the row at `j` leaves the other rows' multiset. */
  lemma RemoveAt(b: seq<Row>, j: nat)
    requires j < |b|
    ensures b == b[..j] + ([b[j]] + b[j + 1..])
    ensures multiset(b[..j] + b[j + 1..]) == multiset(b) - multiset{b[j]}
  {
    assert b == b[..j] + [b[j]] + b[j + 1..];
  }

  /** Taking the row at `j` out of a table takes its prediction out of the column. */
  lemma PredictionsSplit(b: seq<Row>, j: nat)
    requires j < |b|
    ensures multiset(Predictions(b)) ==
            multiset{b[j].prediction} + multiset(Predictions(b[..j] + b[j + 1..]))
  {
    var b1, b2 := b[..j], b[j + 1..];
    RemoveAt(b, j);
    PredictionsConcat(b1, [b[j]] + b2);
    PredictionsConcat([b[j]], b2);
    PredictionsConcat(b1, b2);
    assert Predictions([b[j]]) == [b[j].prediction];
    assert multiset(Predictions(b)) ==
           multiset(Predictions(b1)) + (multiset{b[j].prediction} + multiset(Predictions(b2)));
  }

  /** Equal multisets of rows give equal multisets of predictions. */
  lemma {:induction false} PredictionsMultiset(a: seq<Row>, b: seq<Row>)
    requires multiset(a) == multiset(b)
    ensures multiset(Predictions(a)) == multiset(Predictions(b))
    decreases |a|
  {
    if |a| == 0 {
      assert |b| == 0 by { assert |multiset(b)| == |b|; }
    } else {
      var x := a[0];
      assert x in multiset(b) by { assert x in a; }
      var j :| 0 <= j < |b| && b[j] == x;
      RemoveAt(b, j);
      RemoveAt(a, 0);
      assert a[..0] + a[1..] == a[1..];
      PredictionsMultiset(a[1..], b[..j] + b[j + 1..]);
      PredictionsSplit(a, 0);
      PredictionsSplit(b, j);
    }
  }

  predicate NonIncreasing(p: seq<real>) {
    forall i, j :: 0 <= i < j < |p| ==> p[i] >= p[j]
  }

  /** The head of a non-increasing sequence bounds each of its values. */
  lemma HeadIsMaximum(p: seq<real>, v: real)
    requires NonIncreasing(p)
    requires v in multiset(p)
    ensures |p| > 0 && p[0] >= v
  {
    assert v in p;
    var k :| 0 <= k < |p| && p[k] == v;
    if k > 0 {
      assert p[0] >= p[k];
    }
  }

  /** A multiset of reals has exactly one non-increasing arrangement. */
  lemma {:induction false} NonIncreasingUnique(p: seq<real>, q: seq<real>)
    requires NonIncreasing(p) && NonIncreasing(q)
    requires multiset(p) == multiset(q)
    ensures p == q
    decreases |p|
  {
    if |p| == 0 {
      assert |q| == 0 by { assert |multiset(q)| == |q|; }
    } else {
      assert p[0] == q[0] by {
        assert p[0] in p;
        HeadIsMaximum(q, p[0]);
        assert q[0] in q;
        HeadIsMaximum(p, q[0]);
      }
      assert p == [p[0]] + p[1..];
      assert q == [q[0]] + q[1..];
      assert multiset(p[1..]) == multiset(q[1..]) by {
        assert multiset(p[1..]) == multiset(p) - multiset{p[0]};
        assert multiset(q[1..]) == multiset(q) - multiset{q[0]};
      }
      NonIncreasingUnique(p[1..], q[1..]);
    }
  }

  /** Whatever the tie order, every sorted permutation of the same rows has
      the same prediction in every slot. */
  lemma SortedPermutationsAgree(s: seq<Row>, t: seq<Row>, rows: seq<Row>)
    requires IsSortedPermutation(s, rows) && IsSortedPermutation(t, rows)
    ensures |s| == |t|
    ensures forall i :: 0 <= i < |s| ==> s[i].prediction == t[i].prediction
  {
    PredictionsMultiset(s, t);
    NonIncreasingUnique(Predictions(s), Predictions(t));
    assert |s| == |Predictions(s)| == |Predictions(t)| == |t|;
  }

  /** Without ties the sorted order is unique, so every sort returns the same rows. */
  lemma SortedPermutationUnique(s: seq<Row>, t: seq<Row>, rows: seq<Row>)
    requires DistinctPredictions(rows)
    requires IsSortedPermutation(s, rows) && IsSortedPermutation(t, rows)
    ensures s == t
  {
    SortedPermutationsAgree(s, t, rows);
    PermutationMembers(s, rows);
    PermutationMembers(t, rows);
    forall i | 0 <= i < |s|
      ensures s[i] == t[i]
    {
      var a :| 0 <= a < |rows| && rows[a] == s[i];
      var b :| 0 <= b < |rows| && rows[b] == t[i];
      if a < b || b < a {
        assert rows[a].prediction != rows[b].prediction;
      }
    }
  }

  /** In a table without repeated tickers every row occurs at most once. */
  lemma {:induction false} DistinctTickersCount(rows: seq<Row>, x: Row)
    requires DistinctTickers(rows)
    ensures multiset(rows)[x] <= 1
    decreases |rows|
  {
    if |rows| > 0 {
      assert rows == [rows[0]] + rows[1..];
      DistinctTickersCount(rows[1..], x);
      if rows[0] == x {
        assert x !in rows[1..];
      }
    }
  }

  /** Sorting cannot introduce a repeated ticker. */
  lemma PermutationKeepsDistinctTickers(s: seq<Row>, rows: seq<Row>)
    requires multiset(s) == multiset(rows)
    requires DistinctTickers(rows)
    ensures DistinctTickers(s)
  {
    PermutationMembers(s, rows);
    forall i, j | 0 <= i < j < |s|
      ensures s[i].ticker != s[j].ticker
    {
      if s[i] == s[j] {
        assert s == s[..j] + s[j..];
        assert s[i] in s[..j];
        assert s[j] in s[j..];
        assert multiset(s)[s[i]] == multiset(s[..j])[s[i]] + multiset(s[j..])[s[i]];
        DistinctTickersCount(rows, s[i]);
        assert false;
      }
    }
  }
}
