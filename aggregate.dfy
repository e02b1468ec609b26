/** The order and customer totals of clean.py: every re-identified line is
    worth quantity × price, the lines are summed per order id or per
    customer, and the rows are sorted by key.  Money is in cents, so
    `round(2)` leaves every total as it is. */
module Aggregate {
  import opened Tables
  import opened Reidentify

  /** The key the totals are grouped by. */
  datatype Grouping = ByOrder | ByCustomer

  function KeyOf(l: OrderLine, g: Grouping): int {
    match g
    case ByOrder => l.id
    case ByCustomer => l.customerId
  }

  /** `quantity * price`, in cents. */
  function LineTotal(l: OrderLine): int {
    l.quantity * l.price
  }

  /** The (key, total) column pair of every line. */
  function KeyedTotals(lines: seq<OrderLine>, g: Grouping): (r: seq<(int, int)>)
    ensures |r| == |lines|
    ensures forall k :: k in Keys(r) <==> exists l :: l in lines && KeyOf(l, g) == k
  {
    var r := seq(|lines|, i requires 0 <= i < |lines| => (KeyOf(lines[i], g), LineTotal(lines[i])));
    assert forall i :: 0 <= i < |lines| ==> Keys(r)[i] == KeyOf(lines[i], g);
    r
  }

  predicate KeyLe(a: (int, int), b: (int, int)) {
    a.0 <= b.0
  }

  lemma KeyLeIsTotalPreorder()
    ensures TotalPreorder(KeyLe)
  {
  }

  /** `with_columns(total).groupby(key, maintain_order=True).sum()
      .select(key, round(total, 2)).sort(key)`: one row per key present,
      in strictly ascending key order, holding the sum of that key's line
      totals. */
  function TotalBy(lines: seq<OrderLine>, g: Grouping): (r: seq<(int, int)>)
    ensures forall i, j :: 0 <= i < j < |r| ==> r[i].0 < r[j].0
    ensures forall k :: k in Keys(r) <==> exists l :: l in lines && KeyOf(l, g) == k
    ensures forall p :: p in r ==> p.1 == SumOf(KeyedTotals(lines, g), p.0)
  {
    var kv := KeyedTotals(lines, g);
    KeyLeIsTotalPreorder();
    var r := SortBy(GroupSum(kv), KeyLe);
    SortedGroupSums(kv, r);
    SortedGroupKeys(kv, r);
    r
  }

  lemma SortedGroupSums(kv: seq<(int, int)>, r: seq<(int, int)>)
    requires TotalPreorder(KeyLe) && r == SortBy(GroupSum(kv), KeyLe)
    ensures forall p :: p in r ==> p.1 == SumOf(kv, p.0)
    ensures forall i, j :: 0 <= i < j < |r| ==> r[i].0 < r[j].0
  {
    var groups := GroupSum(kv);
    forall p | p in r ensures p in groups {
      assert p in multiset(groups);
    }
    GroupsDistinct(groups);
    DistinctPermutation(r, groups);
    forall i, j | 0 <= i < j < |r| ensures r[i].0 < r[j].0 {
      assert r[i] in r && r[j] in r;
    }
  }

  lemma SortedGroupKeys(kv: seq<(int, int)>, r: seq<(int, int)>)
    requires TotalPreorder(KeyLe) && r == SortBy(GroupSum(kv), KeyLe)
    ensures forall k :: k in Keys(r) <==> k in Keys(kv)
  {
    var groups := GroupSum(kv);
    forall k ensures k in Keys(r) <==> k in Keys(groups) {
      if k in Keys(r) { KeyOfPermutation(r, groups, k); }
      if k in Keys(groups) { KeyOfPermutation(groups, r, k); }
    }
  }

  /** Grouped rows with distinct keys are distinct rows. */
  lemma GroupsDistinct(groups: seq<(int, int)>)
    requires Distinct(Keys(groups))
    ensures Distinct(groups)
  {
    forall i, j | 0 <= i < j < |groups| ensures groups[i] != groups[j] {
      assert Keys(groups)[i] == groups[i].0 && Keys(groups)[j] == groups[j].0;
    }
  }

  /** The value of a set of lines: the sum of quantity × price over all of
      them, whatever they are grouped by. */
  function LinesValue(lines: seq<OrderLine>): int {
    if lines == [] then 0 else LinesValue(lines[..|lines| - 1]) + LineTotal(lines[|lines| - 1])
  }

  /** Grouping loses no money: under either key, the totals of all keys add
      up to the value of the lines. */
  lemma TotalByConservesTotal(lines: seq<OrderLine>, g: Grouping)
    ensures Total(TotalBy(lines, g)) == LinesValue(lines)
  {
    var kv := KeyedTotals(lines, g);
    KeyLeIsTotalPreorder();
    TotalOfPermutation(TotalBy(lines, g), GroupSum(kv));
    GroupSumConservesTotal(kv);
    KeyedTotalsValue(lines, g);
  }

  lemma {:induction false} KeyedTotalsValue(lines: seq<OrderLine>, g: Grouping)
    ensures Total(KeyedTotals(lines, g)) == LinesValue(lines)
  {
    if lines != [] {
      var init := lines[..|lines| - 1];
      assert KeyedTotals(lines, g)[..|init|] == KeyedTotals(init, g);
      KeyedTotalsValue(init, g);
    }
  }

  /** Both groupings of the same lines add up to the same grand total. */
  lemma OrderAndCustomerTotalsAgree(lines: seq<OrderLine>)
    ensures Total(TotalBy(lines, ByOrder)) == Total(TotalBy(lines, ByCustomer))
  {
    TotalByConservesTotal(lines, ByOrder);
    TotalByConservesTotal(lines, ByCustomer);
  }
}
