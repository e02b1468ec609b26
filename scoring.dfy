/** The R, F and M scores of segment.py: `rank(method='first')` for the
    recency, and `qcut(..., 5)` into five quantile bins.  The quantile
    edges are pandas' linear interpolation between order statistics; they
    are kept exact by scaling them by 5, so every comparison stays in
    integers. */
module Scoring {
  import opened Tables

  /** Row `k` comes before row `i` in the first-occurrence ranking: a smaller
      value, or the same value at an earlier place. */
  predicate Before(x: seq<int>, k: int, i: int)
    requires 0 <= k < |x| && 0 <= i < |x|
  {
    x[k] < x[i] || (x[k] == x[i] && k < i)
  }

  /** Number of rows among the first `m` that come before row `i`. */
  function CountBefore(x: seq<int>, i: int, m: int): nat
    requires 0 <= i < |x| && 0 <= m <= |x|
  {
    if m == 0 then 0 else CountBefore(x, i, m - 1) + if Before(x, m - 1, i) then 1 else 0
  }

  /** `rank(method='first')`: one plus the number of rows before. */
  function RankFirst(x: seq<int>): (r: seq<int>)
    ensures |r| == |x|
    ensures forall i :: 0 <= i < |x| ==> 1 <= r[i] <= |x|
  {
    var r := seq(|x|, i requires 0 <= i < |x| => 1 + CountBefore(x, i, |x|));
    assert forall i :: 0 <= i < |x| ==> 1 <= r[i] <= |x| by {
      forall i | 0 <= i < |x| ensures 1 <= r[i] <= |x| { CountBeforeBound(x, i, |x|); }
    }
    r
  }

  lemma {:induction false} CountBeforeBound(x: seq<int>, i: int, m: int)
    requires 0 <= i < |x| && 0 <= m <= |x|
    ensures CountBefore(x, i, m) <= m
    ensures i < m ==> CountBefore(x, i, m) <= m - 1
  {
    if m > 0 { CountBeforeBound(x, i, m - 1); }
  }

  /** Whatever comes before row `i` comes before a row that `i` comes
      before, and `i` itself is one more. */
  lemma {:induction false} CountBeforeMonotone(x: seq<int>, i: int, j: int, m: int)
    requires 0 <= i < |x| && 0 <= j < |x| && 0 <= m <= |x| && Before(x, i, j)
    ensures CountBefore(x, i, m) <= CountBefore(x, j, m)
    ensures i < m ==> CountBefore(x, i, m) < CountBefore(x, j, m)
  {
    if m > 0 { CountBeforeMonotone(x, i, j, m - 1); }
  }

  /** The first-occurrence ranks are distinct and lie in 1..n (so they are a
      permutation of 1..n); a smaller value gets a smaller rank, and of two
      equal values the earlier one does. */
  lemma RankFirstOrder(x: seq<int>)
    ensures forall i, j :: 0 <= i < |x| && 0 <= j < |x| && Before(x, i, j) ==> RankFirst(x)[i] < RankFirst(x)[j]
    ensures Distinct(RankFirst(x))
  {
    forall i, j | 0 <= i < |x| && 0 <= j < |x| && Before(x, i, j) ensures RankFirst(x)[i] < RankFirst(x)[j] {
      CountBeforeMonotone(x, i, j, |x|);
    }
    forall i, j | 0 <= i < j < |x| ensures RankFirst(x)[i] != RankFirst(x)[j] {
      if Before(x, i, j) {
        CountBeforeMonotone(x, i, j, |x|);
      } else {
        CountBeforeMonotone(x, j, i, |x|);
      }
    }
  }

  predicate IntLe(a: int, b: int) {
    a <= b
  }

  lemma IntLeIsTotalPreorder()
    ensures TotalPreorder(IntLe)
  {
  }

  /** Five times the `k`-th quintile of the sorted values `v`: position
      k(n-1)/5, interpolated linearly between its two neighbours. */
  function Edge(v: seq<int>, k: int): int
    requires |v| >= 2 && 0 <= k <= 5
  {
    var p := k * (|v| - 1);
    assert p <= 5 * (|v| - 1) by { MulBound(k, |v| - 1); }
    var lo, rem := p / 5, p % 5;
    5 * v[lo] + if rem == 0 then 0 else rem * (v[lo + 1] - v[lo])
  }

  lemma MulBound(k: int, b: int)
    requires 0 <= k <= 5 && b >= 0
    ensures 0 <= k * b <= 5 * b
  {
  }

  /** The six quantile edges (scaled by 5). */
  function Edges(v: seq<int>): seq<int>
    requires |v| >= 2
  {
    [Edge(v, 0), Edge(v, 1), Edge(v, 2), Edge(v, 3), Edge(v, 4), Edge(v, 5)]
  }

  predicate StrictlyIncreasing(e: seq<int>) {
    forall i :: 0 <= i < |e| - 1 ==> e[i] < e[i + 1]
  }

  /** `pd.cut(..., right=True)` with the scaled edges `e`: the first bin
      whose right edge is not below the value. */
  function BinOf(x: int, e: seq<int>): (b: int)
    requires |e| == 6
    ensures 1 <= b <= 5
    ensures b < 5 ==> 5 * x <= e[b]
    ensures b > 1 ==> e[b - 1] < 5 * x
  {
    if 5 * x <= e[1] then 1
    else if 5 * x <= e[2] then 2
    else if 5 * x <= e[3] then 3
    else if 5 * x <= e[4] then 4
    else 5
  }

  /** `qcut` raises "Bin edges must be unique" when two quantile edges
      coincide (and so with fewer than two values). */
  datatype QcutError = DuplicateEdges

  /** `qcut(xs, 5)`: the bin (1..5) of every value, or the error. */
  function QCut(xs: seq<int>): (r: Result<seq<int>, QcutError>)
    ensures r.Ok? <==> |xs| >= 2 && StrictlyIncreasing(Edges(SortedValues(xs)))
    ensures r.Ok? ==> |r.value| == |xs| && forall i :: 0 <= i < |xs| ==> 1 <= r.value[i] <= 5
  {
    if |xs| < 2 then Err(DuplicateEdges)
    else
      var e := Edges(SortedValues(xs));
      if !StrictlyIncreasing(e) then Err(DuplicateEdges)
      else Ok(seq(|xs|, i requires 0 <= i < |xs| => BinOf(xs[i], e)))
  }

  function SortedValues(xs: seq<int>): (v: seq<int>)
    ensures SortedBy(v, IntLe) && multiset(v) == multiset(xs) && |v| == |xs|
  {
    IntLeIsTotalPreorder();
    SortBy(xs, IntLe)
  }

  /** Every value lies in the right-closed interval of its bin, the lowest
      bin including its left edge. */
  lemma QCutIntervals(xs: seq<int>)
    requires QCut(xs).Ok?
    ensures forall i :: 0 <= i < |xs| ==>
      var e, b := Edges(SortedValues(xs)), QCut(xs).value[i];
      e[b - 1] <= 5 * xs[i] <= e[b] && (b > 1 ==> e[b - 1] < 5 * xs[i])
  {
    var v := SortedValues(xs);
    var n := |v|;
    EdgeEnds(v);
    forall i | 0 <= i < |xs| ensures 5 * v[0] <= 5 * xs[i] <= 5 * v[n - 1] {
      assert xs[i] in multiset(v);
      var k :| 0 <= k < n && v[k] == xs[i];
      assert IntLe(v[0], v[k]) || k == 0;
      assert IntLe(v[k], v[n - 1]) || k == n - 1;
    }
  }

  /** `labels=[5, 4, 3, 2, 1]`: the recency score of every customer. */
  function RScores(recency: seq<int>): (r: Result<seq<int>, QcutError>)
    ensures r.Ok? ==> |r.value| == |recency| && forall i :: 0 <= i < |recency| ==> 1 <= r.value[i] <= 5
  {
    match QCut(RankFirst(recency))
    case Err(e) => Err(e)
    case Ok(bins) => Ok(seq(|bins|, i requires 0 <= i < |bins| => 6 - bins[i]))
  }

  /** `labels=[1, 2, 3, 4, 5]`: the frequency and monetary scores. */
  function Scores(values: seq<int>): (r: Result<seq<int>, QcutError>)
    ensures r.Ok? ==> |r.value| == |values| && forall i :: 0 <= i < |values| ==> 1 <= r.value[i] <= 5
  {
    QCut(values)
  }

  /** A smaller recency (a more recent customer) never gets a lower R
      score. */
  lemma RScoresMonotone(recency: seq<int>)
    requires RScores(recency).Ok?
    ensures forall i, j :: 0 <= i < |recency| && 0 <= j < |recency| && recency[i] < recency[j] ==>
      RScores(recency).value[i] >= RScores(recency).value[j]
  {
    RankFirstOrder(recency);
    var ranks := RankFirst(recency);
    forall i, j | 0 <= i < |recency| && 0 <= j < |recency| && recency[i] < recency[j]
      ensures ranks[i] <= ranks[j]
    {
      assert Before(recency, i, j);
    }
  }

  /** ⌈a / b⌉ for a >= 0 and b > 0. */
  function CeilDiv(a: int, b: int): (c: int)
    requires a >= 0 && b > 0
    ensures c >= 0 && c * b >= a && (c - 1) * b < a
  {
    var c := (a + b - 1) / b;
    assert c * b + (a + b - 1) % b == a + b - 1;
    c
  }

  /** The R bin in closed form: with distinct ranks 1..n (n >= 2) the edges
      are k(n-1) + 5 over 5, never equal, and rank r falls in bin
      max(1, ⌈5(r-1)/(n-1)⌉). */
  function RankBin(r: int, n: int): int
    requires 1 <= r && n >= 2
  {
    var c := CeilDiv(5 * (r - 1), n - 1);
    if c < 1 then 1 else c
  }

  /** Recency scores never fail for two or more customers, and each is
      6 minus the closed-form bin of the customer's rank. */
  lemma RScoresClosedForm(recency: seq<int>)
    requires |recency| >= 2
    ensures RScores(recency).Ok?
    ensures forall i :: 0 <= i < |recency| ==>
      RScores(recency).value[i] == 6 - RankBin(RankFirst(recency)[i], |recency|)
  {
    var n := |recency|;
    var ranks := RankFirst(recency);
    var e := Edges(SortedValues(ranks));
    RankEdges(recency);
    assert StrictlyIncreasing(e);
    forall i | 0 <= i < n ensures BinOf(ranks[i], e) == RankBin(ranks[i], n) {
      BinOfRank(ranks[i], n, e);
    }
  }

  /** The scaled quantile edges of the values 1..n: k(n-1) + 5 for k = 0..5. */
  function RangeEdges(n: int): seq<int> {
    [5, (n - 1) + 5, 2 * (n - 1) + 5, 3 * (n - 1) + 5, 4 * (n - 1) + 5, 5 * (n - 1) + 5]
  }

  /** The quantile edges of the ranks 1..n. */
  lemma RankEdges(recency: seq<int>)
    requires |recency| >= 2
    ensures Edges(SortedValues(RankFirst(recency))) == RangeEdges(|recency|)
  {
    var v := SortedValues(RankFirst(recency));
    assert |v| == |recency|;
    SortedRanks(recency);
    EdgesOfRange(v);
  }

  /** The quantile edges of the values 1..n. */
  lemma EdgesOfRange(v: seq<int>)
    requires |v| >= 2 && forall i :: 0 <= i < |v| ==> v[i] == i + 1
    ensures Edges(v) == RangeEdges(|v|)
  {
    EdgeOfRange(v, 0);
    EdgeOfRange(v, 1);
    EdgeOfRange(v, 2);
    EdgeOfRange(v, 3);
    EdgeOfRange(v, 4);
    EdgeOfRange(v, 5);
  }

  /** Sorted, the first-occurrence ranks are 1, 2, ..., n. */
  lemma SortedRanks(recency: seq<int>)
    ensures forall k :: 0 <= k < |recency| ==> SortedValues(RankFirst(recency))[k] == k + 1
  {
    var n := |recency|;
    var ranks := RankFirst(recency);
    RankFirstOrder(recency);
    var v := SortedValues(ranks);
    DistinctPermutation(v, ranks);
    forall k | 0 <= k < n ensures 1 <= v[k] <= n {
      assert v[k] in multiset(ranks);
    }
    SortedDistinctRange(v);
  }

  /** Strictly increasing values from 1..n, n of them, are 1, 2, ..., n. */
  lemma SortedDistinctRange(v: seq<int>)
    requires SortedBy(v, IntLe) && Distinct(v)
    requires forall k :: 0 <= k < |v| ==> 1 <= v[k] <= |v|
    ensures forall k :: 0 <= k < |v| ==> v[k] == k + 1
  {
    forall k | 0 <= k < |v| ensures v[k] == k + 1 {
      GapsAtLeastOne(v, 0, k);
      GapsAtLeastOne(v, k, |v| - 1);
    }
  }

  lemma {:induction false} GapsAtLeastOne(v: seq<int>, i: int, j: int)
    requires SortedBy(v, IntLe) && Distinct(v) && 0 <= i <= j < |v|
    ensures v[j] - v[i] >= j - i
    decreases j - i
  {
    if i < j {
      GapsAtLeastOne(v, i + 1, j);
      assert IntLe(v[i], v[i + 1]) && v[i] != v[i + 1];
    }
  }

  lemma EdgeOfRange(v: seq<int>, k: int)
    requires |v| >= 2 && 0 <= k <= 5
    requires forall i :: 0 <= i < |v| ==> v[i] == i + 1
    ensures Edge(v, k) == k * (|v| - 1) + 5
  {
    var p := k * (|v| - 1);
    MulBound(k, |v| - 1);
    var lo, rem := p / 5, p % 5;
    assert p == 5 * lo + rem;
  }

  lemma BinOfRank(r: int, n: int, e: seq<int>)
    requires 1 <= r <= n && n >= 2
    requires e == RangeEdges(n)
    ensures BinOf(r, e) == RankBin(r, n)
  {
    var a, b := 5 * (r - 1), n - 1;
    var c := CeilDiv(a, b);
    assert c <= 5 by {
      if c > 5 { MulAbove(c - 1, 5, b); }
    }
    // 5r <= k(n-1) + 5 exactly when k >= c
    forall k | 1 <= k <= 5 ensures (5 * r <= k * b + 5) <==> k >= c {
      if k >= c { MulAbove(k, c, b); }
      else { MulAbove(c - 1, k, b); }
    }
  }

  lemma MulAbove(x: int, y: int, b: int)
    requires x >= y && b > 0
    ensures x * b >= y * b
  {
    assert x * b - y * b == (x - y) * b;
  }

  /** A larger frequency (or monetary value) never gets a lower score. */
  lemma ScoresMonotone(values: seq<int>)
    requires Scores(values).Ok?
    ensures forall i, j :: 0 <= i < |values| && 0 <= j < |values| && values[i] <= values[j] ==>
      Scores(values).value[i] <= Scores(values).value[j]
  {
  }

  /** Fewer than two values, or all values equal, make `qcut` fail. */
  lemma QCutNeedsSpread(xs: seq<int>)
    requires |xs| < 2 || forall i :: 0 <= i < |xs| ==> xs[i] == xs[0]
    ensures QCut(xs).Err?
  {
    if |xs| >= 2 {
      var v := SortedValues(xs);
      forall k | 0 <= k < |v| ensures v[k] == xs[0] {
        assert v[k] in multiset(xs);
      }
      EdgeEnds(v);
      EdgesMonotone(v);
    }
  }

  /** The outer edges are five times the smallest and the largest value. */
  lemma EdgeEnds(v: seq<int>)
    requires |v| >= 2
    ensures Edge(v, 0) == 5 * v[0] && Edge(v, 5) == 5 * v[|v| - 1]
  {
  }

  lemma EdgesMonotone(v: seq<int>)
    requires |v| >= 2
    ensures StrictlyIncreasing(Edges(v)) ==> Edge(v, 0) < Edge(v, 5)
  {
    var e := Edges(v);
    if StrictlyIncreasing(e) {
      assert e[0] < e[1] < e[2] < e[3] < e[4] < e[5];
    }
  }
}
