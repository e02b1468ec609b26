/** The transaction classifier of clean.py: customers with more than 1000
    cleaned sales rows are non-retail; their rows form the B2B partition and
    every other row the B2C partition. */
module Classify {
  import opened Tables
  import opened Sales

  /** A customer with more rows than this is non-retail. */
  const Threshold := 1000

  /** Number of sales rows of customer `c`. */
  function RowCount(sales: seq<Sale>, c: int): nat {
    if sales == [] then 0
    else RowCount(sales[..|sales| - 1], c) + (if sales[|sales| - 1].customerId == c then 1 else 0)
  }

  /** A (customer_id, 1) row per sales row; `count()` adds them per customer. */
  function CustomerOnes(sales: seq<Sale>): seq<(int, int)> {
    seq(|sales|, i requires 0 <= i < |sales| => (sales[i].customerId, 1))
  }

  /** The (customer_id, count) rows whose count is above the threshold. */
  function AboveThreshold(counts: seq<(int, int)>): (r: seq<(int, int)>)
    ensures forall p :: p in r <==> p in counts && p.1 > Threshold
  {
    if counts == [] then []
    else
      var init, last := counts[..|counts| - 1], counts[|counts| - 1];
      assert counts == init + [last];
      AboveThreshold(init) + if last.1 > Threshold then [last] else []
  }

  /** `groupby('customer_id', maintain_order=True).count().filter(count > 1000)`. */
  function NonRetail(sales: seq<Sale>): seq<(int, int)> {
    AboveThreshold(GroupSum(CustomerOnes(sales)))
  }

  lemma {:induction false} CountIsRowCount(sales: seq<Sale>, c: int)
    ensures SumOf(CustomerOnes(sales), c) == RowCount(sales, c)
  {
    if sales != [] {
      var init := sales[..|sales| - 1];
      assert CustomerOnes(sales)[..|sales| - 1] == CustomerOnes(init);
      CountIsRowCount(init, c);
    }
  }

  /** A customer is non-retail exactly when it has more than 1000 rows (so a
      customer with exactly 1000 rows stays retail); each row carries that
      customer's row count, and no customer is listed twice. */
  lemma NonRetailIff(sales: seq<Sale>)
    ensures forall c :: c in Keys(NonRetail(sales)) <==> RowCount(sales, c) > Threshold
    ensures forall p :: p in NonRetail(sales) ==> p.1 == RowCount(sales, p.0)
    ensures Distinct(Keys(NonRetail(sales)))
  {
    var groups := GroupSum(CustomerOnes(sales));
    forall p | p in NonRetail(sales) ensures p.1 == RowCount(sales, p.0) {
      NonRetailCount(sales, p);
    }
    forall c ensures c in Keys(NonRetail(sales)) <==> RowCount(sales, c) > Threshold {
      NonRetailMember(sales, c);
    }
    AboveThresholdDistinct(groups);
  }

  lemma NonRetailCount(sales: seq<Sale>, p: (int, int))
    requires p in NonRetail(sales)
    ensures p.1 == RowCount(sales, p.0)
  {
    var groups := GroupSum(CustomerOnes(sales));
    var i :| 0 <= i < |groups| && groups[i] == p;
    CountIsRowCount(sales, p.0);
  }

  lemma NonRetailMember(sales: seq<Sale>, c: int)
    ensures c in Keys(NonRetail(sales)) <==> RowCount(sales, c) > Threshold
  {
    var ones := CustomerOnes(sales);
    var groups := GroupSum(ones);
    var r := NonRetail(sales);
    CountIsRowCount(sales, c);
    if c in Keys(r) {
      var i :| 0 <= i < |r| && Keys(r)[i] == c;
      assert r[i] in groups;
      NonRetailCount(sales, r[i]);
    }
    if RowCount(sales, c) > Threshold {
      RowCountPositive(sales, c);
      var k :| 0 <= k < |sales| && sales[k].customerId == c;
      assert Keys(ones)[k] == ones[k].0 == c;
      assert c in Keys(groups);
      var i :| 0 <= i < |groups| && Keys(groups)[i] == c;
      assert groups[i].1 == RowCount(sales, c);
      assert groups[i] in r;
      var j :| 0 <= j < |r| && r[j] == groups[i];
      assert Keys(r)[j] == c;
    }
  }

  lemma {:induction false} RowCountPositive(sales: seq<Sale>, c: int)
    requires RowCount(sales, c) > 0
    ensures exists k :: 0 <= k < |sales| && sales[k].customerId == c
  {
    var init := sales[..|sales| - 1];
    if sales[|sales| - 1].customerId != c {
      RowCountPositive(init, c);
      var k :| 0 <= k < |init| && init[k].customerId == c;
      assert sales[k] == init[k];
    }
  }

  /** Filtering rows keeps their keys distinct. */
  lemma {:induction false} AboveThresholdDistinct(counts: seq<(int, int)>)
    requires Distinct(Keys(counts))
    ensures Distinct(Keys(AboveThreshold(counts)))
  {
    if counts != [] {
      var init, last := counts[..|counts| - 1], counts[|counts| - 1];
      assert counts == init + [last];
      assert Keys(init) == Keys(counts)[..|init|];
      assert Distinct(Keys(init));
      AboveThresholdDistinct(init);
      var p := AboveThreshold(init);
      if last.1 > Threshold {
        var r := AboveThreshold(counts);
        assert r == p + [last];
        forall i | 0 <= i < |p| ensures p[i].0 != last.0 {
          assert p[i] in init;
          var a :| 0 <= a < |init| && init[a] == p[i];
          assert Keys(counts)[a] == p[i].0 && Keys(counts)[|init|] == last.0;
        }
        forall i, j | 0 <= i < j < |r| ensures Keys(r)[i] != Keys(r)[j] {
          assert Keys(r)[i] == r[i].0 && Keys(r)[j] == r[j].0;
          if j < |p| {
            assert Keys(p)[i] == p[i].0 && Keys(p)[j] == p[j].0;
          }
        }
      } else {
        assert AboveThreshold(counts) == p;
      }
    }
  }

  /** `sales.filter(customer_id.is_in(ids))` when `inside`, and its negation
      `~is_in` otherwise: the rows on one side of the split, in their order. */
  function Where(sales: seq<Sale>, ids: seq<int>, inside: bool): (r: seq<Sale>)
    ensures forall s :: s in r <==> s in sales && (s.customerId in ids) == inside
    ensures |r| <= |sales|
  {
    if sales == [] then []
    else
      var init, last := sales[..|sales| - 1], sales[|sales| - 1];
      assert sales == init + [last];
      Where(init, ids, inside) + if (last.customerId in ids) == inside then [last] else []
  }

  /** The B2B partition: the rows of non-retail customers. */
  function B2BSales(sales: seq<Sale>): seq<Sale> {
    Where(sales, Keys(NonRetail(sales)), true)
  }

  /** The B2C partition: every other row. */
  function B2CSales(sales: seq<Sale>): seq<Sale> {
    Where(sales, Keys(NonRetail(sales)), false)
  }

  /** The two sides of the split together hold every row exactly as often as
      the input does. */
  lemma {:induction false} WherePartitions(sales: seq<Sale>, ids: seq<int>)
    ensures multiset(Where(sales, ids, true)) + multiset(Where(sales, ids, false)) == multiset(sales)
  {
    if sales != [] {
      var init := sales[..|sales| - 1];
      assert sales == init + [sales[|sales| - 1]];
      WherePartitions(init, ids);
    }
  }

  /** The split is a filter: it distributes over concatenation, so each side
      keeps the relative order of the input. */
  lemma {:induction false} WhereDistributes(a: seq<Sale>, b: seq<Sale>, ids: seq<int>, inside: bool)
    ensures Where(a + b, ids, inside) == Where(a, ids, inside) + Where(b, ids, inside)
  {
    if b == [] {
      assert a + b == a;
    } else {
      var init := b[..|b| - 1];
      assert (a + b)[..|a + b| - 1] == a + init;
      WhereDistributes(a, init, ids, inside);
    }
  }

  /** Each side of the split keeps the time order of the cleaned sales. */
  lemma WhereKeepsSorted(sales: seq<Sale>, ids: seq<int>, inside: bool)
    requires SortedBy(sales, TimeLe)
    ensures SortedBy(Where(sales, ids, inside), TimeLe)
  {
    if sales != [] {
      var init, last := sales[..|sales| - 1], sales[|sales| - 1];
      assert sales == init + [last];
      assert SortedBy(init, TimeLe);
      WhereKeepsSorted(init, ids, inside);
      forall s | s in Where(init, ids, inside) ensures TimeLe(s, last) {
        var k :| 0 <= k < |init| && init[k] == s;
      }
    }
  }

  /** B2B and B2C partition the cleaned sales: every row lands on exactly
      one side, B2B holding exactly the rows of non-retail customers. */
  lemma Partition(sales: seq<Sale>)
    ensures multiset(B2BSales(sales)) + multiset(B2CSales(sales)) == multiset(sales)
    ensures forall s :: s in B2BSales(sales) <==> s in sales && RowCount(sales, s.customerId) > Threshold
    ensures forall s :: s in B2CSales(sales) <==> s in sales && RowCount(sales, s.customerId) <= Threshold
  {
    WherePartitions(sales, Keys(NonRetail(sales)));
    NonRetailIff(sales);
  }
}
