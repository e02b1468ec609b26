/** The RFM table of query.py: the per-order totals are joined to the B2C
    sales lines on the order id, and every customer gets a recency (whole
    days from 2022-05-01 back to the customer's latest purchase), a
    frequency (the number of joined rows) and a monetary value (the sum of
    the joined totals); the rows are sorted by frequency, highest first. */
module Rfm {
  import opened Tables
  import opened Reidentify
  import opened Aggregate

  /** 2022-05-01 00:00:00, in seconds since 1970-01-01. */
  const ReferenceDate := 1651363200

  const SecondsPerDay := 86400

  /** `Duration.dt.days()`: whole days of a duration, truncated toward zero
      (a purchase after the reference date gives a negative recency). */
  function WholeDays(seconds: int): (d: int)
    ensures seconds >= 0 ==> 0 <= d && d * SecondsPerDay <= seconds < (d + 1) * SecondsPerDay
    ensures seconds < 0 ==> d <= 0 && (d - 1) * SecondsPerDay < seconds <= d * SecondsPerDay
  {
    if seconds >= 0 then seconds / SecondsPerDay else -((-seconds) / SecondsPerDay)
  }

  /** A longer duration never has fewer whole days. */
  lemma WholeDaysMonotone(a: int, b: int)
    requires a <= b
    ensures WholeDays(a) <= WholeDays(b)
  {
    var da, db := WholeDays(a), WholeDays(b);
    if a >= 0 {
      assert da * SecondsPerDay < (db + 1) * SecondsPerDay;
    } else if b < 0 {
      assert (da - 1) * SecondsPerDay < db * SecondsPerDay;
    }
  }

  /** A row of the join projected on (customer_id, time, total). */
  datatype JoinedRow = JoinedRow(customerId: int, time: int, total: int)

  /** The joined rows of line `l`: one per total row whose order id is the
      line's, in the order of the totals. */
  function TotalsFor(l: OrderLine, totals: seq<(int, int)>): seq<JoinedRow> {
    if totals == [] then []
    else
      var t := totals[|totals| - 1];
      TotalsFor(l, totals[..|totals| - 1]) + if t.0 == l.id then [JoinedRow(l.customerId, l.time, t.1)] else []
  }

  /** `totals.join(lines, on='id').select('customer_id', 'time', 'total')`:
      the inner join, in the order of the lines, each line followed by its
      matching totals. */
  function JoinTotals(totals: seq<(int, int)>, lines: seq<OrderLine>): seq<JoinedRow> {
    if lines == [] then [] else JoinTotals(totals, lines[..|lines| - 1]) + TotalsFor(lines[|lines| - 1], totals)
  }

  function Customers(rows: seq<JoinedRow>): seq<int> {
    seq(|rows|, i requires 0 <= i < |rows| => rows[i].customerId)
  }

  /** A (customer_id, value) pair per joined row, for the per-customer sums. */
  function CustomerOnes(rows: seq<JoinedRow>): seq<(int, int)> {
    seq(|rows|, i requires 0 <= i < |rows| => (rows[i].customerId, 1))
  }

  function CustomerTotals(rows: seq<JoinedRow>): seq<(int, int)> {
    seq(|rows|, i requires 0 <= i < |rows| => (rows[i].customerId, rows[i].total))
  }

  /** `col('time').count()` per customer. */
  function Frequency(rows: seq<JoinedRow>, c: int): int {
    SumOf(CustomerOnes(rows), c)
  }

  /** `col('total').sum().round(2)` per customer (cents: no rounding). */
  function Monetary(rows: seq<JoinedRow>, c: int): int {
    SumOf(CustomerTotals(rows), c)
  }

  /** `col('time').max()` over the rows of customer `c`. */
  function LatestTime(rows: seq<JoinedRow>, c: int): (t: int)
    requires c in Customers(rows)
    ensures forall x :: x in rows && x.customerId == c ==> x.time <= t
    ensures exists x :: x in rows && x.customerId == c && x.time == t
  {
    var init, last := rows[..|rows| - 1], rows[|rows| - 1];
    assert rows == init + [last];
    assert Customers(rows) == Customers(init) + [last.customerId];
    if c !in Customers(init) then
      assert forall x :: x in init ==> x.customerId != c by {
        forall x | x in init ensures x.customerId != c {
          var i :| 0 <= i < |init| && init[i] == x;
          assert Customers(init)[i] == x.customerId;
        }
      }
      last.time
    else
      var t := LatestTime(init, c);
      if last.customerId == c && last.time > t then last.time else t
  }

  /** One output row of `agg`. */
  datatype RfmRow = RfmRow(customerId: int, recency: int, frequency: int, monetary: int)

  function RowOf(rows: seq<JoinedRow>, c: int): RfmRow
    requires c in Customers(rows)
  {
    RfmRow(c, WholeDays(ReferenceDate - LatestTime(rows, c)), Frequency(rows, c), Monetary(rows, c))
  }

  /** `groupby('customer_id', maintain_order=True).agg(...)`: one row per
      customer, in the order customers are first seen. */
  function GroupRfm(rows: seq<JoinedRow>): seq<RfmRow> {
    var cs := Unique(Customers(rows));
    seq(|cs|, i requires 0 <= i < |cs| => RowOf(rows, cs[i]))
  }

  /** `sort('frequency', descending=True)`. */
  predicate FrequencyDescLe(a: RfmRow, b: RfmRow) {
    a.frequency >= b.frequency
  }

  lemma FrequencyDescLeIsTotalPreorder()
    ensures TotalPreorder(FrequencyDescLe)
  {
  }

  function RfmCustomers(r: seq<RfmRow>): seq<int> {
    seq(|r|, i requires 0 <= i < |r| => r[i].customerId)
  }

  /** The RFM table: sorted by frequency, highest first, with one row per
      customer of the join, each row holding that customer's aggregates. */
  function Rfm(totals: seq<(int, int)>, lines: seq<OrderLine>): (r: seq<RfmRow>)
    ensures SortedBy(r, FrequencyDescLe)
    ensures Distinct(RfmCustomers(r))
    ensures forall c :: c in RfmCustomers(r) <==> c in Customers(JoinTotals(totals, lines))
    ensures forall p :: p in r ==>
      (p.customerId in Customers(JoinTotals(totals, lines)) && p == RowOf(JoinTotals(totals, lines), p.customerId))
  {
    var rows := JoinTotals(totals, lines);
    FrequencyDescLeIsTotalPreorder();
    var g := GroupRfm(rows);
    var r := SortBy(g, FrequencyDescLe);
    GroupRfmFacts(rows);
    SortedRfmFacts(g, r);
    r
  }

  lemma GroupRfmFacts(rows: seq<JoinedRow>)
    ensures Distinct(RfmCustomers(GroupRfm(rows)))
    ensures forall c :: c in RfmCustomers(GroupRfm(rows)) <==> c in Customers(rows)
    ensures forall p :: p in GroupRfm(rows) ==> p.customerId in Customers(rows) && p == RowOf(rows, p.customerId)
  {
    var g := GroupRfm(rows);
    var cs := Unique(Customers(rows));
    assert RfmCustomers(g) == cs;
  }

  lemma SortedRfmFacts(g: seq<RfmRow>, r: seq<RfmRow>)
    requires multiset(r) == multiset(g)
    requires Distinct(RfmCustomers(g))
    ensures Distinct(RfmCustomers(r))
    ensures forall c :: c in RfmCustomers(r) <==> c in RfmCustomers(g)
    ensures forall p :: p in r <==> p in g
  {
    forall p ensures p in r <==> p in g {
      assert p in r <==> p in multiset(r);
    }
    forall c ensures c in RfmCustomers(r) <==> c in RfmCustomers(g) {
      if c in RfmCustomers(r) {
        var i :| 0 <= i < |r| && RfmCustomers(r)[i] == c;
        assert r[i] in g;
        var j :| 0 <= j < |g| && g[j] == r[i];
        assert RfmCustomers(g)[j] == c;
      }
      if c in RfmCustomers(g) {
        var i :| 0 <= i < |g| && RfmCustomers(g)[i] == c;
        assert g[i] in r;
        var j :| 0 <= j < |r| && r[j] == g[i];
        assert RfmCustomers(r)[j] == c;
      }
    }
    assert Distinct(g) by {
      forall i, j | 0 <= i < j < |g| ensures g[i] != g[j] {
        assert RfmCustomers(g)[i] != RfmCustomers(g)[j];
      }
    }
    DistinctPermutation(r, g);
    forall i, j | 0 <= i < j < |r| ensures RfmCustomers(r)[i] != RfmCustomers(r)[j] {
      assert r[i] in g && r[j] in g;
      RowsOfOneCustomer(g, r[i], r[j]);
    }
  }

  /** In a table with one row per customer, two rows of the same customer are
      the same row. */
  lemma RowsOfOneCustomer(g: seq<RfmRow>, p: RfmRow, q: RfmRow)
    requires Distinct(RfmCustomers(g)) && p in g && q in g
    ensures p.customerId == q.customerId ==> p == q
  {
    var i :| 0 <= i < |g| && g[i] == p;
    var j :| 0 <= j < |g| && g[j] == q;
    assert RfmCustomers(g)[i] == p.customerId && RfmCustomers(g)[j] == q.customerId;
  }

  /** Every customer of the join has at least one row, so a frequency of at
      least one, and a recency counted from that customer's latest row. */
  lemma FrequencyPositive(rows: seq<JoinedRow>, c: int)
    requires c in Customers(rows)
    ensures Frequency(rows, c) >= 1
  {
    var i :| 0 <= i < |rows| && Customers(rows)[i] == c;
    CountAtLeastOne(CustomerOnes(rows), i);
  }

  lemma {:induction false} CountAtLeastOne(kv: seq<(int, int)>, i: nat)
    requires i < |kv| && forall j :: 0 <= j < |kv| ==> kv[j].1 == 1
    ensures SumOf(kv, kv[i].0) >= 1
  {
    OnesNonNegative(kv[..|kv| - 1], kv[i].0);
    if i < |kv| - 1 {
      CountAtLeastOne(kv[..|kv| - 1], i);
    }
  }

  lemma {:induction false} OnesNonNegative(kv: seq<(int, int)>, k: int)
    requires forall j :: 0 <= j < |kv| ==> kv[j].1 == 1
    ensures SumOf(kv, k) >= 0
  {
    if kv != [] { OnesNonNegative(kv[..|kv| - 1], k); }
  }

  /** A customer whose latest purchase is later never has a larger recency. */
  lemma RecencyMonotone(rows: seq<JoinedRow>, c: int, d: int)
    requires c in Customers(rows) && d in Customers(rows)
    requires LatestTime(rows, c) <= LatestTime(rows, d)
    ensures RowOf(rows, d).recency <= RowOf(rows, c).recency
  {
    WholeDaysMonotone(ReferenceDate - LatestTime(rows, d), ReferenceDate - LatestTime(rows, c));
  }

  /** The joined row each line would get with the total of its own order. */
  function LineRows(lines: seq<OrderLine>, all: seq<OrderLine>): seq<JoinedRow> {
    seq(|lines|, i requires 0 <= i < |lines| =>
      JoinedRow(lines[i].customerId, lines[i].time, SumOf(KeyedTotals(all, ByOrder), lines[i].id)))
  }

  /** A line whose order id is not among the totals joins nothing. */
  lemma {:induction false} TotalsForNone(l: OrderLine, totals: seq<(int, int)>)
    requires l.id !in Keys(totals)
    ensures TotalsFor(l, totals) == []
  {
    if totals != [] {
      var init := totals[..|totals| - 1];
      assert Keys(totals) == Keys(init) + [totals[|totals| - 1].0];
      TotalsForNone(l, init);
    }
  }

  /** With distinct order ids, a line whose id is among the totals joins
      exactly once, and carries its order's total. */
  lemma {:induction false} TotalsForOnce(l: OrderLine, totals: seq<(int, int)>, all: seq<OrderLine>)
    requires Distinct(Keys(totals)) && l.id in Keys(totals)
    requires forall t :: t in totals ==> t.1 == SumOf(KeyedTotals(all, ByOrder), t.0)
    ensures TotalsFor(l, totals) == [JoinedRow(l.customerId, l.time, SumOf(KeyedTotals(all, ByOrder), l.id))]
  {
    var init, t := totals[..|totals| - 1], totals[|totals| - 1];
    assert Keys(totals) == Keys(init) + [t.0];
    assert t in totals;
    if t.0 == l.id {
      assert l.id !in Keys(init) by {
        forall i | 0 <= i < |init| ensures Keys(init)[i] != l.id {
          assert Keys(totals)[i] != Keys(totals)[|init|];
        }
      }
      TotalsForNone(l, init);
    } else {
      assert Distinct(Keys(init)) by {
        forall i, j | 0 <= i < j < |init| ensures Keys(init)[i] != Keys(init)[j] {
          assert Keys(totals)[i] != Keys(totals)[j];
        }
      }
      assert forall u :: u in init ==> u in totals;
      TotalsForOnce(l, init, all);
    }
  }

  /** Joining order totals with distinct ids that are the sums of their
      lines, where every line's id has a total, gives each line once, in
      the lines' order, with its own order's total. */
  lemma {:induction false} JoinTotalsRows(totals: seq<(int, int)>, lines: seq<OrderLine>, all: seq<OrderLine>)
    requires Distinct(Keys(totals))
    requires forall t :: t in totals ==> t.1 == SumOf(KeyedTotals(all, ByOrder), t.0)
    requires forall l :: l in lines ==> l.id in Keys(totals)
    ensures JoinTotals(totals, lines) == LineRows(lines, all)
  {
    if lines != [] {
      var init, l := lines[..|lines| - 1], lines[|lines| - 1];
      assert forall x :: x in init ==> x in lines;
      JoinTotalsRows(totals, init, all);
      TotalsForOnce(l, totals, all);
      assert LineRows(lines, all) == LineRows(init, all) + LineRows([l], all);
    }
  }

  /** The RFM input built from the order totals of the same lines: the join
      holds every line exactly once, in the lines' order, carrying the
      total of its order. */
  lemma JoinOfOrderTotals(lines: seq<OrderLine>)
    ensures JoinTotals(TotalBy(lines, ByOrder), lines) == LineRows(lines, lines)
  {
    var totals := TotalBy(lines, ByOrder);
    assert Distinct(Keys(totals)) by {
      forall i, j | 0 <= i < j < |totals| ensures Keys(totals)[i] != Keys(totals)[j] {
        assert totals[i].0 < totals[j].0;
      }
    }
    forall l | l in lines ensures l.id in Keys(totals) {
      assert KeyOf(l, ByOrder) == l.id;
    }
    JoinTotalsRows(totals, lines, lines);
  }

  /** Per customer, frequency counts the customer's sales lines and monetary
      adds the total of the line's order once per line: an order of three
      lines is counted three times. */
  lemma RfmOfOrderTotals(lines: seq<OrderLine>)
    ensures forall c :: c in RfmCustomers(Rfm(TotalBy(lines, ByOrder), lines)) <==> c in Customers(LineRows(lines, lines))
    ensures forall p :: p in Rfm(TotalBy(lines, ByOrder), lines) ==>
      (p.customerId in Customers(LineRows(lines, lines)) && p == RowOf(LineRows(lines, lines), p.customerId))
  {
    JoinOfOrderTotals(lines);
  }

  /** The number of lines of customer `c`. */
  function LineCount(lines: seq<OrderLine>, c: int): nat {
    if lines == [] then 0
    else LineCount(lines[..|lines| - 1], c) + if lines[|lines| - 1].customerId == c then 1 else 0
  }

  /** With one joined row per line, the frequency of a customer is the
      number of that customer's sales lines, not of its orders. */
  lemma {:induction false} FrequencyCountsLines(lines: seq<OrderLine>, all: seq<OrderLine>, c: int)
    ensures Frequency(LineRows(lines, all), c) == LineCount(lines, c)
  {
    if lines != [] {
      var init := lines[..|lines| - 1];
      assert CustomerOnes(LineRows(lines, all))[..|init|] == CustomerOnes(LineRows(init, all));
      FrequencyCountsLines(init, all, c);
    }
  }

  lemma CustomerOfPermutation(a: seq<JoinedRow>, b: seq<JoinedRow>, c: int)
    requires multiset(a) == multiset(b) && c in Customers(a)
    ensures c in Customers(b)
  {
    var i :| 0 <= i < |a| && Customers(a)[i] == c;
    assert a[i] in multiset(b);
    var j :| 0 <= j < |b| && b[j] == a[i];
    assert Customers(b)[j] == c;
  }

  /** The customers and their aggregates do not depend on the order of the
      joined rows, which the join does not fix. */
  lemma RowOfPermutation(a: seq<JoinedRow>, b: seq<JoinedRow>, c: int)
    requires multiset(a) == multiset(b) && c in Customers(a)
    ensures c in Customers(b) && RowOf(a, c) == RowOf(b, c)
  {
    CustomerOfPermutation(a, b, c);
    var f := (x: JoinedRow) => (x.customerId, 1);
    var g := (x: JoinedRow) => (x.customerId, x.total);
    MapPermutation(f, a, b);
    MapPermutation(g, a, b);
    assert CustomerOnes(a) == Map(f, a) && CustomerOnes(b) == Map(f, b);
    assert CustomerTotals(a) == Map(g, a) && CustomerTotals(b) == Map(g, b);
    SumOfPermutation(CustomerOnes(a), CustomerOnes(b), c);
    SumOfPermutation(CustomerTotals(a), CustomerTotals(b), c);
    var ta, tb := LatestTime(a, c), LatestTime(b, c);
    var x :| x in a && x.customerId == c && x.time == ta;
    var y :| y in b && y.customerId == c && y.time == tb;
    assert x in multiset(b) && y in multiset(a);
  }

  /** A worked example: one customer with two joined rows (50.00 on
      2022-01-10 and 30.00 on 2022-04-20) has recency 11, frequency 2 and
      monetary 80.00. */
  lemma RfmRowExample()
    ensures var rows := [JoinedRow(7, 1641772800, 5000), JoinedRow(7, 1650412800, 3000)];
            7 in Customers(rows) && RowOf(rows, 7) == RfmRow(7, 11, 2, 8000)
  {
    var rows := [JoinedRow(7, 1641772800, 5000), JoinedRow(7, 1650412800, 3000)];
    assert Customers(rows) == [7, 7];
    assert LatestTime(rows, 7) == 1650412800;
    var ones, totals := CustomerOnes(rows), CustomerTotals(rows);
    assert ones == [(7, 1), (7, 1)] && totals == [(7, 5000), (7, 3000)];
    assert ones[..1] == [(7, 1)] && ones[..1][..0] == [];
    assert totals[..1] == [(7, 5000)] && totals[..1][..0] == [];
    assert SumOf(ones[..1], 7) == 1 && SumOf(totals[..1], 7) == 5000;
    assert Frequency(rows, 7) == 2;
    assert Monetary(rows, 7) == 8000;
    assert WholeDays(ReferenceDate - 1650412800) == 11;
  }
}
