/** Order re-identification of clean.py: the line columns are dropped from a
    partition, the remaining order rows are deduplicated and sorted by time,
    numbered 1..N, and joined back to the lines on every order column; the
    raw transaction id is then dropped and the new number becomes `id`. */
module Reidentify {
  import opened Tables
  import opened Text
  import opened Sales

  /** A sales row without its line columns (product, quantity, price, promo
      flag): the order it belongs to, still carrying the raw `id`. */
  datatype OrderHead = OrderHead(id: int, storeId: int, staffId: int, customerId: int, time: int)

  /** A re-identified sales line; the fields follow the alphabetical column
      order of the output, `id` being the new order number. */
  datatype OrderLine = OrderLine(
    id: int,
    customerId: int,
    isPromo: bool,
    price: int,
    productId: int,
    quantity: int,
    staffId: int,
    storeId: int,
    time: int)

  function HeadOf(s: Sale): OrderHead {
    OrderHead(s.id, s.storeId, s.staffId, s.customerId, s.time)
  }

  function Heads(sales: seq<Sale>): seq<OrderHead> {
    seq(|sales|, i requires 0 <= i < |sales| => HeadOf(sales[i]))
  }

  predicate HeadTimeLe(a: OrderHead, b: OrderHead) {
    a.time <= b.time
  }

  lemma HeadTimeLeIsTotalPreorder()
    ensures TotalPreorder(HeadTimeLe)
  {
  }

  /** `drop(line columns).unique(maintain_order=True).sort('time')`: the
      distinct orders of a partition in time order. */
  function Orders(sales: seq<Sale>): (r: seq<OrderHead>)
    ensures SortedBy(r, HeadTimeLe) && Distinct(r)
    ensures forall h :: h in r <==> h in Heads(sales)
    ensures |r| == |set h | h in Heads(sales)|
  {
    HeadTimeLeIsTotalPreorder();
    var u := Unique(Heads(sales));
    var r := SortBy(u, HeadTimeLe);
    DistinctPermutation(r, u);
    DistinctCardinality(u);
    assert (set h | h in u) == (set h | h in Heads(sales));
    assert forall h :: h in r <==> h in multiset(u);
    r
  }

  /** The new id of the order of row `s`: its place in `Orders` plus one. */
  function IdOf(sales: seq<Sale>, s: Sale): nat
    requires s in sales
  {
    assert HeadOf(s) in Heads(sales) by {
      var k :| 0 <= k < |sales| && sales[k] == s;
      assert Heads(sales)[k] == HeadOf(s);
    }
    FirstIndex(Orders(sales), HeadOf(s)) + 1
  }

  /** The ids given to the rows of a partition. */
  function Ids(sales: seq<Sale>): set<int> {
    set s | s in sales :: IdOf(sales, s)
  }

  /** A joined line renumbered `k`, the raw id dropped. */
  function Line(k: int, s: Sale): OrderLine {
    OrderLine(k, s.customerId, s.isPromo, s.price, s.productId, s.quantity, s.staffId, s.storeId, s.time)
  }

  /** The join partners of row `s` among the orders numbered from `first`
      on: one joined line per order whose (time, id, store_id, staff_id,
      customer_id) is the row's. */
  function JoinRow(first: int, orders: seq<OrderHead>, s: Sale): seq<OrderLine>
    decreases |orders|
  {
    if orders == [] then []
    else (if orders[0] == HeadOf(s) then [Line(first, s)] else []) + JoinRow(first + 1, orders[1..], s)
  }

  /** `orders.join(sales, on=[...])`: the inner join, in the order of the
      sales rows, each row followed by its partners. */
  function Join(orders: seq<OrderHead>, sales: seq<Sale>): seq<OrderLine> {
    if sales == [] then []
    else Join(orders, sales[..|sales| - 1]) + JoinRow(1, orders, sales[|sales| - 1])
  }

  /** The re-identified partition: the distinct orders in time order,
      numbered from 1, joined back to the rows. */
  function Reidentify(sales: seq<Sale>): seq<OrderLine> {
    Join(Orders(sales), sales)
  }

  /** A row whose order is not among `orders` joins nothing. */
  lemma {:induction false} JoinRowNone(first: int, orders: seq<OrderHead>, s: Sale)
    requires HeadOf(s) !in orders
    ensures JoinRow(first, orders, s) == []
    decreases |orders|
  {
    if orders != [] {
      assert forall h :: h in orders[1..] ==> h in orders;
      JoinRowNone(first + 1, orders[1..], s);
    }
  }

  /** A row whose order occurs at position `k` of distinct orders has
      exactly one partner, numbered `first + k`. */
  lemma {:induction false} JoinRowOnce(first: int, orders: seq<OrderHead>, s: Sale, k: nat)
    requires Distinct(orders) && k < |orders| && orders[k] == HeadOf(s)
    ensures JoinRow(first, orders, s) == [Line(first + k, s)]
    decreases k
  {
    var rest := orders[1..];
    assert forall j :: 0 <= j < |rest| ==> rest[j] == orders[j + 1];
    if k == 0 {
      assert HeadOf(s) !in rest by {
        forall j | 0 <= j < |rest| ensures rest[j] != HeadOf(s) {
          assert orders[j + 1] != orders[0];
        }
      }
      JoinRowNone(first + 1, rest, s);
    } else {
      assert orders[0] != orders[k];
      assert Distinct(rest) by {
        forall i, j | 0 <= i < j < |rest| ensures rest[i] != rest[j] {
          assert orders[i + 1] != orders[j + 1];
        }
      }
      assert rest[k - 1] == HeadOf(s);
      JoinRowOnce(first + 1, rest, s, k - 1);
    }
  }

  /** Every row whose order occurs once among `orders` joins exactly once,
      so the join is the rows themselves, in their order, each renumbered by
      the position of its order. */
  lemma {:induction false} JoinEachRow(orders: seq<OrderHead>, sales: seq<Sale>)
    requires Distinct(orders)
    requires forall s :: s in sales ==> HeadOf(s) in orders
    ensures |Join(orders, sales)| == |sales|
    ensures forall i :: 0 <= i < |sales| ==>
      Join(orders, sales)[i] == Line(FirstIndex(orders, HeadOf(sales[i])) + 1, sales[i])
  {
    if sales != [] {
      var init, last := sales[..|sales| - 1], sales[|sales| - 1];
      assert forall s :: s in init ==> s in sales;
      JoinEachRow(orders, init);
      var k := FirstIndex(orders, HeadOf(last));
      JoinRowOnce(1, orders, last, k);
      var j := Join(orders, sales);
      assert j == Join(orders, init) + [Line(k + 1, last)];
      forall i | 0 <= i < |sales|
        ensures j[i] == Line(FirstIndex(orders, HeadOf(sales[i])) + 1, sales[i])
      {
        if i < |init| {
          assert j[i] == Join(orders, init)[i] && sales[i] == init[i];
        }
      }
    }
  }

  /** The re-identified partition holds one line per row, in the rows'
      order: row i, renumbered with the id of its order and without its
      raw id. */
  lemma ReidentifyRows(sales: seq<Sale>)
    ensures |Reidentify(sales)| == |sales|
    ensures forall i :: 0 <= i < |sales| ==> Reidentify(sales)[i] == Line(IdOf(sales, sales[i]), sales[i])
  {
    var orders := Orders(sales);
    forall s | s in sales ensures HeadOf(s) in orders {
      var k :| 0 <= k < |sales| && sales[k] == s;
      assert Heads(sales)[k] == HeadOf(s);
    }
    JoinEachRow(orders, sales);
  }

  /** A joined line: exactly the line of a row of the partition, numbered by
      the order of that row. */
  lemma ReidentifyLines(sales: seq<Sale>)
    ensures forall l :: l in Reidentify(sales) <==> exists s :: s in sales && l == Line(IdOf(sales, s), s)
  {
    ReidentifyRows(sales);
    var r := Reidentify(sales);
    forall l | l in r ensures exists s :: s in sales && l == Line(IdOf(sales, s), s) {
      var i :| 0 <= i < |r| && r[i] == l;
      assert sales[i] in sales;
    }
    forall s | s in sales ensures Line(IdOf(sales, s), s) in r {
      var i :| 0 <= i < |sales| && sales[i] == s;
      assert r[i] == Line(IdOf(sales, s), s);
    }
  }

  /** The new ids are 1..N without gaps, N being the number of distinct
      orders; two rows get the same id exactly when they belong to the same
      order (same raw id, store, staff, customer and time). */
  lemma ReidentifyIds(sales: seq<Sale>)
    ensures forall s :: s in sales ==> 1 <= IdOf(sales, s) <= |set h | h in Heads(sales)|
    ensures forall k :: 1 <= k <= |set h | h in Heads(sales)| ==> k in Ids(sales)
    ensures forall s, t :: s in sales && t in sales ==> (IdOf(sales, s) == IdOf(sales, t) <==> HeadOf(s) == HeadOf(t))
  {
    var orders := Orders(sales);
    forall k | 1 <= k <= |orders| ensures k in Ids(sales) {
      assert orders[k - 1] in Heads(sales);
      var i :| 0 <= i < |sales| && Heads(sales)[i] == orders[k - 1];
      assert IdOf(sales, sales[i]) == k;
    }
  }

  /** The ids follow time: an earlier order never gets a larger id, and a
      larger id never belongs to an earlier order. */
  lemma ReidentifyTimeOrder(sales: seq<Sale>)
    ensures forall s, t :: s in sales && t in sales && s.time < t.time ==> IdOf(sales, s) < IdOf(sales, t)
    ensures forall s, t :: s in sales && t in sales && IdOf(sales, s) < IdOf(sales, t) ==> s.time <= t.time
  {
  }

  /** Re-identified lines in time order. */
  predicate LineTimeLe(a: OrderLine, b: OrderLine) {
    a.time <= b.time
  }

  /** The partitions of the cleaned sales are in time order, and the join
      keeps the rows' order, so the re-identified lines are in time order. */
  lemma ReidentifySorted(sales: seq<Sale>)
    requires SortedBy(sales, TimeLe)
    ensures SortedBy(Reidentify(sales), LineTimeLe)
  {
    ReidentifyRows(sales);
    forall i, j | 0 <= i < j < |Reidentify(sales)| ensures LineTimeLe(Reidentify(sales)[i], Reidentify(sales)[j]) {
      assert TimeLe(sales[i], sales[j]);
    }
  }

  /** When the partition already comes in time order, as the cleaned sales
      do, the orders are numbered in the order they are first seen. */
  lemma OrdersOfSortedSales(sales: seq<Sale>)
    requires SortedBy(sales, TimeLe)
    ensures Orders(sales) == Unique(Heads(sales))
  {
    assert SortedBy(Heads(sales), HeadTimeLe) by {
      forall i, j | 0 <= i < j < |sales| ensures HeadTimeLe(Heads(sales)[i], Heads(sales)[j]) {
        assert TimeLe(sales[i], sales[j]);
      }
    }
    UniqueKeepsSorted(Heads(sales), HeadTimeLe);
    HeadTimeLeIsTotalPreorder();
    SortSortedIsIdentity(Unique(Heads(sales)), HeadTimeLe);
  }

  /** A line without its order number, to compare lines before and after
      renumbering. */
  function Fact(s: Sale): OrderLine {
    Line(0, s)
  }

  function Facts(ss: seq<Sale>): seq<OrderLine> {
    seq(|ss|, i requires 0 <= i < |ss| => Fact(ss[i]))
  }

  function LineFacts(ls: seq<OrderLine>): seq<OrderLine> {
    seq(|ls|, i requires 0 <= i < |ls| => ls[i].(id := 0))
  }

  /** Renumbering neither loses, duplicates nor moves a line: apart from the
      order number, the output is the partition itself. */
  lemma ReidentifyConservesLines(sales: seq<Sale>)
    ensures LineFacts(Reidentify(sales)) == Facts(sales)
  {
    ReidentifyRows(sales);
  }

  /** The column names of the joined table after the raw id is dropped. */
  const JoinedColumns: seq<string> :=
    ["time", "store_id", "staff_id", "customer_id", "_id", "product_id", "quantity", "price", "is_promo"]

  /** `select(sorted(columns))`, before `_id` is renamed to `id`. */
  const SortedColumns: seq<string> :=
    ["_id", "customer_id", "is_promo", "price", "product_id", "quantity", "staff_id", "store_id", "time"]

  /** The output columns are the joined columns in code-point order, `_id`
      (an underscore sorts before every lower-case letter) coming first, so
      the renamed `id` is the first column, as in `OrderLine`. */
  lemma ColumnOrder()
    ensures SortedBy(SortedColumns, StrLe)
    ensures multiset(SortedColumns) == multiset(JoinedColumns)
    ensures SortedColumns[0] == "_id"
  {
    var c := SortedColumns;
    ColumnPairs();
    StrLeIsTotalPreorder();
    AdjacentSorted(c);
    ColumnsPermuted();
  }

  lemma ColumnsPermuted()
    ensures multiset(SortedColumns) == multiset(JoinedColumns)
  {
    var c := SortedColumns;
    assert JoinedColumns == [c[8], c[7], c[6], c[1], c[0], c[4], c[5], c[3], c[2]];
    assert c == [c[0], c[1], c[2], c[3], c[4], c[5], c[6], c[7], c[8]];
    Rearranged(c[0], c[1], c[2], c[3], c[4], c[5], c[6], c[7], c[8]);
  }

  /** The rearrangement that takes the sorted columns to the joined ones
      keeps every element: six exchanges of neighbouring blocks. */
  lemma Rearranged<T>(a0: T, a1: T, a2: T, a3: T, a4: T, a5: T, a6: T, a7: T, a8: T)
    ensures multiset([a8, a7, a6, a1, a0, a4, a5, a3, a2]) == multiset([a0, a1, a2, a3, a4, a5, a6, a7, a8])
  {
    var s0 := [a0, a1, a2, a3, a4, a5, a6, a7, a8];
    var s1 := [a6, a7, a8, a0, a1, a2, a3, a4, a5];
    var s2 := [a7, a8, a6, a0, a1, a2, a3, a4, a5];
    var s3 := [a8, a7, a6, a0, a1, a2, a3, a4, a5];
    var s4 := [a8, a7, a6, a1, a0, a2, a3, a4, a5];
    var s5 := [a8, a7, a6, a1, a0, a4, a5, a2, a3];
    var s6 := [a8, a7, a6, a1, a0, a4, a5, a3, a2];
    assert s0 == [] + [a0, a1, a2, a3, a4, a5] + [a6, a7, a8] + [] && s1 == [] + [a6, a7, a8] + [a0, a1, a2, a3, a4, a5] + [];
    assert s1 == [] + [a6] + [a7, a8] + [a0, a1, a2, a3, a4, a5] && s2 == [] + [a7, a8] + [a6] + [a0, a1, a2, a3, a4, a5];
    assert s2 == [] + [a7] + [a8] + [a6, a0, a1, a2, a3, a4, a5] && s3 == [] + [a8] + [a7] + [a6, a0, a1, a2, a3, a4, a5];
    assert s3 == [a8, a7, a6] + [a0] + [a1] + [a2, a3, a4, a5] && s4 == [a8, a7, a6] + [a1] + [a0] + [a2, a3, a4, a5];
    assert s4 == [a8, a7, a6, a1, a0] + [a2, a3] + [a4, a5] + [] && s5 == [a8, a7, a6, a1, a0] + [a4, a5] + [a2, a3] + [];
    assert s5 == [a8, a7, a6, a1, a0, a4, a5] + [a2] + [a3] + [] && s6 == [a8, a7, a6, a1, a0, a4, a5] + [a3] + [a2] + [];
    SwapBlocks([], [a0, a1, a2, a3, a4, a5], [a6, a7, a8], []);
    SwapBlocks([], [a6], [a7, a8], [a0, a1, a2, a3, a4, a5]);
    SwapBlocks([], [a7], [a8], [a6, a0, a1, a2, a3, a4, a5]);
    SwapBlocks([a8, a7, a6], [a0], [a1], [a2, a3, a4, a5]);
    SwapBlocks([a8, a7, a6, a1, a0], [a2, a3], [a4, a5], []);
    SwapBlocks([a8, a7, a6, a1, a0, a4, a5], [a2], [a3], []);
  }

  /** Exchanging two neighbouring blocks keeps every element. */
  lemma SwapBlocks<T>(p: seq<T>, a: seq<T>, b: seq<T>, q: seq<T>)
    ensures multiset(p + a + b + q) == multiset(p + b + a + q)
  {
  }

  lemma ColumnPairs()
    ensures forall i :: 0 <= i < |SortedColumns| - 1 ==> StrLe(SortedColumns[i], SortedColumns[i + 1])
  {
    var c := SortedColumns;
    assert StrLe(c[0], c[1]);
    assert StrLe(c[1], c[2]);
    assert StrLe(c[2], c[3]);
    assert StrLe(c[3], c[4]) by { assert c[3][1..][1..] == "ice" && c[4][1..][1..] == "oduct_id"; }
    assert StrLe(c[4], c[5]);
    assert StrLe(c[5], c[6]);
    assert StrLe(c[6], c[7]) by { assert c[6][1..][1..] == "aff_id" && c[7][1..][1..] == "ore_id"; }
    assert StrLe(c[7], c[8]);
  }

  /** A sequence whose neighbours are in order is in order. */
  lemma AdjacentSorted(s: seq<string>)
    requires TotalPreorder(StrLe)
    requires forall i :: 0 <= i < |s| - 1 ==> StrLe(s[i], s[i + 1])
    ensures SortedBy(s, StrLe)
  {
    forall i, j | 0 <= i < j < |s| ensures StrLe(s[i], s[j]) {
      AdjacentStep(s, i, j);
    }
  }

  lemma {:induction false} AdjacentStep(s: seq<string>, i: int, j: int)
    requires TotalPreorder(StrLe)
    requires forall i :: 0 <= i < |s| - 1 ==> StrLe(s[i], s[i + 1])
    requires 0 <= i < j < |s|
    ensures StrLe(s[i], s[j])
    decreases j - i
  {
    if i + 1 < j {
      AdjacentStep(s, i + 1, j);
    }
  }
}
