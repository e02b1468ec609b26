/** Generic table operations shared by every stage of the pipeline: nullable
    cells, order-preserving deduplication, sorting by a comparator, and
    group-wise sums in first-seen key order.  A table is a `seq` of rows. */
module Tables {

  /** A cell that may be null. */
  datatype Option<+T> = None | Some(value: T)

  /** A stage either produces a table or fails with an error. */
  datatype Result<+T, +E> = Ok(value: T) | Err(error: E)

  /** The yearly extracts one after the other (`concat`). */
  function Concat<T(!new)>(tables: seq<seq<T>>): (r: seq<T>)
    ensures forall x :: x in r <==> exists t :: t in tables && x in t
  {
    if tables == [] then [] else tables[0] + Concat(tables[1..])
  }

  /** No row occurs twice. */
  predicate Distinct<T(==,!new)>(s: seq<T>) {
    forall i, j :: 0 <= i < j < |s| ==> s[i] != s[j]
  }

  /** Position of the first occurrence of `x` in `s`. */
  function FirstIndex<T(==,!new)>(s: seq<T>, x: T): (i: nat)
    requires x in s
    ensures i < |s| && s[i] == x && x !in s[..i]
  {
    if s[0] == x then 0
    else
      var k := FirstIndex(s[1..], x);
      assert s[..k + 1] == [s[0]] + s[1..][..k];
      k + 1
  }

  /** Order-preserving deduplication that keeps the first occurrence of every
      row (`unique(maintain_order=True)` with its default keep-first). */
  function Unique<T(==,!new)>(s: seq<T>): (r: seq<T>)
    ensures Distinct(r)
    ensures forall x :: x in r <==> x in s
    ensures |r| <= |s|
  {
    if s == [] then []
    else
      var init := s[..|s| - 1];
      assert s == init + [s[|s| - 1]];
      var p := Unique(init);
      if s[|s| - 1] in p then p else p + [s[|s| - 1]]
  }

  /** The rows Unique keeps appear in the order of their first occurrences. */
  lemma {:induction false} UniqueKeepsFirstOrder<T(!new)>(s: seq<T>)
    ensures forall i, j :: 0 <= i < j < |Unique(s)| ==>
      FirstIndex(s, Unique(s)[i]) < FirstIndex(s, Unique(s)[j])
  {
    if s != [] {
      var init, x := s[..|s| - 1], s[|s| - 1];
      assert s == init + [x];
      UniqueKeepsFirstOrder(init);
      var p := Unique(init);
      // The first occurrence of a row of `init` is the same in `s`.
      forall y | y in init ensures FirstIndex(s, y) == FirstIndex(init, y) {
        var b := FirstIndex(init, y);
        assert s[..b] == init[..b];
      }
      if x !in p {
        assert x !in init;
        assert s[..|init|] == init;
      }
    }
  }

  /** Unique keeps any order the input already has. */
  lemma {:induction false} UniqueKeepsSorted<T(!new)>(s: seq<T>, le: (T, T) -> bool)
    requires SortedBy(s, le)
    ensures SortedBy(Unique(s), le)
  {
    if s != [] {
      var init, x := s[..|s| - 1], s[|s| - 1];
      assert s == init + [x];
      assert SortedBy(init, le);
      UniqueKeepsSorted(init, le);
      var p := Unique(init);
      if x !in p {
        forall i | 0 <= i < |p| ensures le(p[i], x) {
          assert p[i] in init;
          var k :| 0 <= k < |init| && init[k] == p[i];
          assert s[k] == p[i];
        }
      }
    }
  }

  /** A sequence without repeats has as many distinct elements as entries. */
  lemma {:induction false} DistinctCardinality<T(!new)>(s: seq<T>)
    requires Distinct(s)
    ensures |set x | x in s| == |s|
  {
    if s != [] {
      var init, x := s[..|s| - 1], s[|s| - 1];
      assert s == init + [x];
      DistinctCardinality(init);
      assert (set y | y in s) == (set y | y in init) + {x};
      assert x !in (set y | y in init);
    }
  }

  /** A row that occurs at two places occurs at least twice. */
  lemma TwiceInMultiset<T>(s: seq<T>, i: nat, j: nat)
    requires i < j < |s| && s[i] == s[j]
    ensures multiset(s)[s[i]] >= 2
  {
    assert s == s[..i] + [s[i]] + s[i + 1..j] + [s[j]] + s[j + 1..];
  }

  /** A row of a sequence without repeats occurs in it at most once. */
  lemma {:induction false} DistinctAtMostOnce<T(!new)>(s: seq<T>, x: T)
    requires Distinct(s)
    ensures multiset(s)[x] <= 1
  {
    if s != [] {
      var init := s[..|s| - 1];
      assert s == init + [s[|s| - 1]];
      assert Distinct(init);
      DistinctAtMostOnce(init, x);
      if s[|s| - 1] == x {
        assert x !in init;
      }
    }
  }

  /** Reordering a sequence without repeats gives one without repeats. */
  lemma DistinctPermutation<T(!new)>(a: seq<T>, b: seq<T>)
    requires multiset(a) == multiset(b) && Distinct(b)
    ensures Distinct(a)
  {
    forall i, j | 0 <= i < j < |a| ensures a[i] != a[j] {
      if a[i] == a[j] {
        TwiceInMultiset(a, i, j);
        DistinctAtMostOnce(b, a[i]);
      }
    }
  }

  /** `le` is a total preorder: any two rows compare, and it is transitive. */
  ghost predicate TotalPreorder<T(!new)>(le: (T, T) -> bool) {
    && (forall a, b :: le(a, b) || le(b, a))
    && (forall a, b, c :: le(a, b) && le(b, c) ==> le(a, c))
  }

  /** Every row compares `le` to every later row. */
  predicate SortedBy<T>(s: seq<T>, le: (T, T) -> bool) {
    forall i, j :: 0 <= i < j < |s| ==> le(s[i], s[j])
  }

  /** Inserts `x` into a sorted table after every row that is not above it. */
  function Insert<T(!new)>(x: T, s: seq<T>, le: (T, T) -> bool): (r: seq<T>)
    requires TotalPreorder(le) && SortedBy(s, le)
    ensures SortedBy(r, le)
    ensures multiset(r) == multiset(s) + multiset{x} && |r| == |s| + 1
  {
    if s == [] || le(s[|s| - 1], x) then s + [x]
    else
      var init, last := s[..|s| - 1], s[|s| - 1];
      assert s == init + [last];
      var r' := Insert(x, init, le);
      InsertedBelowLast(x, init, last, r', le);
      r' + [last]
  }

  lemma InsertedBelowLast<T(!new)>(x: T, init: seq<T>, last: T, r: seq<T>, le: (T, T) -> bool)
    requires TotalPreorder(le) && SortedBy(init + [last], le) && !le(last, x)
    requires multiset(r) == multiset(init) + multiset{x}
    ensures forall i :: 0 <= i < |r| ==> le(r[i], last)
  {
    assert le(x, last);
    assert (init + [last])[|init|] == last;
    forall i | 0 <= i < |r| ensures le(r[i], last) {
      assert r[i] in multiset(r);
      if r[i] != x {
        assert r[i] in init;
        var k :| 0 <= k < |init| && init[k] == r[i];
        assert (init + [last])[k] == r[i];
      }
    }
  }

  /** Insertion sort by `le`; equal rows keep their relative order. */
  function SortBy<T(!new)>(s: seq<T>, le: (T, T) -> bool): (r: seq<T>)
    requires TotalPreorder(le)
    ensures SortedBy(r, le)
    ensures multiset(r) == multiset(s) && |r| == |s|
  {
    if s == [] then []
    else
      assert s == s[..|s| - 1] + [s[|s| - 1]];
      Insert(s[|s| - 1], SortBy(s[..|s| - 1], le), le)
  }

  /** Sorting a table that is already in order leaves it as it is. */
  lemma {:induction false} SortSortedIsIdentity<T(!new)>(s: seq<T>, le: (T, T) -> bool)
    requires TotalPreorder(le) && SortedBy(s, le)
    ensures SortBy(s, le) == s
  {
    if s != [] {
      var init := s[..|s| - 1];
      assert s == init + [s[|s| - 1]];
      assert SortedBy(init, le);
      SortSortedIsIdentity(init, le);
    }
  }

  /** The keys of a table of (key, value) rows. */
  function Keys<K, V>(kv: seq<(K, V)>): seq<K> {
    seq(|kv|, i requires 0 <= i < |kv| => kv[i].0)
  }

  /** Reordering rows keeps the set of keys. */
  lemma KeyOfPermutation<K, V>(a: seq<(K, V)>, b: seq<(K, V)>, k: K)
    requires multiset(a) == multiset(b) && k in Keys(a)
    ensures k in Keys(b)
  {
    var i :| 0 <= i < |a| && Keys(a)[i] == k;
    assert a[i] in multiset(b);
    var j :| 0 <= j < |b| && b[j] == a[i];
    assert Keys(b)[j] == k;
  }

  /** Sum of the values of all rows. */
  function Total<K>(kv: seq<(K, int)>): int {
    if kv == [] then 0 else Total(kv[..|kv| - 1]) + kv[|kv| - 1].1
  }

  /** Sum of the values of the rows whose key is `k`. */
  function SumOf<K(==,!new)>(kv: seq<(K, int)>, k: K): int {
    if kv == [] then 0
    else SumOf(kv[..|kv| - 1], k) + (if kv[|kv| - 1].0 == k then kv[|kv| - 1].1 else 0)
  }

  /** One row per key of `ks`, holding that key's sum in `kv`. */
  function SumRows<K(==,!new)>(ks: seq<K>, kv: seq<(K, int)>): seq<(K, int)> {
    seq(|ks|, i requires 0 <= i < |ks| => (ks[i], SumOf(kv, ks[i])))
  }

  /** `groupby(key, maintain_order=True).sum()`: one row per distinct key, in
      the order keys are first seen, with the sum of that key's values. */
  function GroupSum<K(==,!new)>(kv: seq<(K, int)>): (r: seq<(K, int)>)
    ensures Keys(r) == Unique(Keys(kv)) && Distinct(Keys(r))
    ensures forall k :: k in Keys(r) <==> k in Keys(kv)
    ensures forall i :: 0 <= i < |r| ==> r[i].1 == SumOf(kv, r[i].0)
  {
    SumRows(Unique(Keys(kv)), kv)
  }

  /** A key that never occurs sums to zero. */
  lemma {:induction false} SumOfAbsent<K(!new)>(kv: seq<(K, int)>, k: K)
    requires k !in Keys(kv)
    ensures SumOf(kv, k) == 0
  {
    if kv != [] {
      var init := kv[..|kv| - 1];
      assert Keys(init) == Keys(kv)[..|kv| - 1];
      assert kv[|kv| - 1].0 == Keys(kv)[|kv| - 1];
      SumOfAbsent(init, k);
    }
  }

  /** Adding up the per-key sums over distinct keys `ks`. */
  function SumOver<K(==,!new)>(ks: seq<K>, kv: seq<(K, int)>): int {
    if ks == [] then 0 else SumOver(ks[..|ks| - 1], kv) + SumOf(kv, ks[|ks| - 1])
  }

  lemma {:induction false} SumOverAppendRow<K(!new)>(ks: seq<K>, kv: seq<(K, int)>, p: (K, int))
    requires Distinct(ks)
    ensures SumOver(ks, kv + [p]) == SumOver(ks, kv) + (if p.0 in ks then p.1 else 0)
  {
    if ks != [] {
      var init := ks[..|ks| - 1];
      assert ks == init + [ks[|ks| - 1]];
      assert (kv + [p])[..|kv + [p]| - 1] == kv;
      SumOverAppendRow(init, kv, p);
    }
  }

  /** Summing every key's group over all the keys gives the grand total. */
  lemma {:induction false} SumOverAllKeys<K(!new)>(ks: seq<K>, kv: seq<(K, int)>)
    requires Distinct(ks)
    requires forall k :: k in Keys(kv) ==> k in ks
    ensures SumOver(ks, kv) == Total(kv)
  {
    if kv == [] {
      EmptySumOver(ks, kv);
    } else {
      var init, p := kv[..|kv| - 1], kv[|kv| - 1];
      assert kv == init + [p];
      assert Keys(kv) == Keys(init) + [p.0];
      SumOverAllKeys(ks, init);
      SumOverAppendRow(ks, init, p);
    }
  }

  lemma {:induction false} EmptySumOver<K(!new)>(ks: seq<K>, kv: seq<(K, int)>)
    requires kv == []
    ensures SumOver(ks, kv) == 0
  {
    if ks != [] { EmptySumOver(ks[..|ks| - 1], kv); }
  }

  lemma {:induction false} TotalOfSumRows<K(!new)>(ks: seq<K>, kv: seq<(K, int)>)
    ensures Total(SumRows(ks, kv)) == SumOver(ks, kv)
  {
    if ks != [] {
      var init := ks[..|ks| - 1];
      assert SumRows(ks, kv)[..|ks| - 1] == SumRows(init, kv);
      TotalOfSumRows(init, kv);
    }
  }

  /** Grouping conserves the grand total: the group sums add up to the sum of
      every row. */
  lemma GroupSumConservesTotal<K(!new)>(kv: seq<(K, int)>)
    ensures Total(GroupSum(kv)) == Total(kv)
  {
    var ks := Unique(Keys(kv));
    TotalOfSumRows(ks, kv);
    SumOverAllKeys(ks, kv);
  }

  /** The total does not depend on the order of the rows. */
  lemma {:induction false} TotalOfPermutation<K>(a: seq<(K, int)>, b: seq<(K, int)>)
    requires multiset(a) == multiset(b)
    ensures Total(a) == Total(b)
    decreases |a|
  {
    if a == [] {
      assert b == [] by { assert |b| == |multiset(b)| == 0; }
    } else {
      var init, x := a[..|a| - 1], a[|a| - 1];
      assert a == init + [x];
      assert x in multiset(b);
      var j :| 0 <= j < |b| && b[j] == x;
      var b' := b[..j] + b[j + 1..];
      RemoveAt(b, j);
      assert multiset(b') == multiset(init) by {
        assert multiset(a) == multiset(init) + multiset{x};
      }
      TotalOfPermutation(init, b');
    }
  }

  /** Taking out the row at place j takes its value out of the total. */
  lemma RemoveAt<K>(b: seq<(K, int)>, j: nat)
    requires j < |b|
    ensures multiset(b[..j] + b[j + 1..]) == multiset(b) - multiset{b[j]}
    ensures Total(b) == Total(b[..j] + b[j + 1..]) + b[j].1
  {
    var l, x, r := b[..j], b[j], b[j + 1..];
    assert b[j..] == [x] + r;
    assert b == l + b[j..];
    RemoveMiddle(l, x, r);
  }

  lemma RemoveMiddle<K>(l: seq<(K, int)>, x: (K, int), r: seq<(K, int)>)
    ensures multiset(l + r) == multiset(l + ([x] + r)) - multiset{x}
    ensures Total(l + ([x] + r)) == Total(l + r) + x.1
  {
    assert l + ([x] + r) == (l + [x]) + r;
    TotalAppend(l + [x], r);
    TotalAppend(l, [x]);
    TotalAppend(l, r);
    assert Total([x]) == x.1 by { assert [x][..0] == []; }
  }

  lemma {:induction false} TotalAppend<K>(a: seq<(K, int)>, b: seq<(K, int)>)
    ensures Total(a + b) == Total(a) + Total(b)
  {
    if b != [] {
      var init := b[..|b| - 1];
      assert a + b == (a + init) + [b[|b| - 1]];
      TotalAppend(a, init);
      calc {
        Total(a + b);
        { assert (a + b)[..|a + b| - 1] == a + init; }
        Total(a + init) + b[|b| - 1].1;
        Total(a) + Total(init) + b[|b| - 1].1;
        Total(a) + Total(b);
      }
    } else {
      assert a + b == a;
    }
  }

  /** `f` applied to every row. */
  function Map<A, B>(f: A -> B, s: seq<A>): seq<B> {
    seq(|s|, i requires 0 <= i < |s| => f(s[i]))
  }

  /** The results of a mapping are the images of the rows. */
  lemma MapMembers<A(!new), B>(f: A -> B, s: seq<A>)
    ensures forall y :: y in Map(f, s) <==> exists x :: x in s && y == f(x)
  {
    forall y | y in Map(f, s) ensures exists x :: x in s && y == f(x) {
      var i :| 0 <= i < |s| && Map(f, s)[i] == y;
      assert s[i] in s;
    }
    forall x | x in s ensures f(x) in Map(f, s) {
      var i :| 0 <= i < |s| && s[i] == x;
      assert Map(f, s)[i] == f(x);
    }
  }

  /** `drop_nulls()` once every row has been mapped to the complete row it
      holds, or to None when one of its cells is null: the complete rows, in
      their order. */
  function Somes<T(!new)>(s: seq<Option<T>>): (r: seq<T>)
    ensures forall x :: x in r <==> Some(x) in s
    ensures |r| <= |s|
  {
    if s == [] then []
    else
      var init, last := s[..|s| - 1], s[|s| - 1];
      assert s == init + [last];
      Somes(init) + if last.Some? then [last.value] else []
  }

  /** A strict cast applied to every row: the first row that fails makes the
      whole table fail. */
  function AllOk<A, B, E>(rows: seq<A>, f: A -> Result<B, E>): (r: Result<seq<B>, E>)
    ensures r.Ok? <==> forall i :: 0 <= i < |rows| ==> f(rows[i]).Ok?
    ensures r.Ok? ==> |r.value| == |rows| && forall i :: 0 <= i < |rows| ==> r.value[i] == f(rows[i]).value
  {
    if rows == [] then Ok([])
    else
      match f(rows[0])
      case Err(e) => Err(e)
      case Ok(b) =>
        match AllOk(rows[1..], f)
        case Err(e) =>
          assert forall i :: 1 <= i < |rows| ==> rows[i] == rows[1..][i - 1];
          Err(e)
        case Ok(bs) => Ok([b] + bs)
  }

  /** The rows of a successful strict cast are the casts of the input rows. */
  lemma AllOkMembers<A, B, E>(rows: seq<A>, f: A -> Result<B, E>, b: B)
    requires AllOk(rows, f).Ok?
    ensures b in AllOk(rows, f).value <==> exists x :: x in rows && b == f(x).value
  {
    var r := AllOk(rows, f).value;
    if b in r {
      var i :| 0 <= i < |r| && r[i] == b;
      assert rows[i] in rows;
    }
    if exists x :: x in rows && b == f(x).value {
      var x :| x in rows && b == f(x).value;
      var i :| 0 <= i < |rows| && rows[i] == x;
      assert r[i] == b;
    }
  }

  lemma MapAppend<A, B>(f: A -> B, a: seq<A>, b: seq<A>)
    ensures Map(f, a + b) == Map(f, a) + Map(f, b)
  {
  }

  /** Mapping two reorderings of the same rows gives two reorderings of the
      same results. */
  lemma {:induction false} MapPermutation<A, B>(f: A -> B, a: seq<A>, b: seq<A>)
    requires multiset(a) == multiset(b)
    ensures multiset(Map(f, a)) == multiset(Map(f, b))
    decreases |a|
  {
    if a == [] {
      assert b == [] by { assert |b| == |multiset(b)| == 0; }
    } else {
      var init, x := a[..|a| - 1], a[|a| - 1];
      assert a == init + [x];
      assert x in multiset(b);
      var j :| 0 <= j < |b| && b[j] == x;
      var b' := b[..j] + b[j + 1..];
      assert b == b[..j] + [x] + b[j + 1..];
      RemoveOne(b, j);
      assert multiset(b') == multiset(init) by {
        assert multiset(a) == multiset(init) + multiset{x};
      }
      MapPermutation(f, init, b');
      MapAppend(f, init, [x]);
      MapAppend(f, b[..j] + [x], b[j + 1..]);
      MapAppend(f, b[..j], [x]);
      MapAppend(f, b[..j], b[j + 1..]);
    }
  }

  lemma RemoveOne<T>(b: seq<T>, j: nat)
    requires j < |b|
    ensures multiset(b[..j] + b[j + 1..]) == multiset(b) - multiset{b[j]}
  {
    assert b == b[..j] + [b[j]] + b[j + 1..];
  }

  /** The rows of `kv` with the values of every key but `k` set to zero. */
  function Masked<K(==)>(kv: seq<(K, int)>, k: K): seq<(K, int)> {
    Map((p: (K, int)) => (p.0, if p.0 == k then p.1 else 0), kv)
  }

  lemma {:induction false} SumOfIsMaskedTotal<K(!new)>(kv: seq<(K, int)>, k: K)
    ensures SumOf(kv, k) == Total(Masked(kv, k))
  {
    if kv != [] {
      var init := kv[..|kv| - 1];
      assert Masked(kv, k)[..|init|] == Masked(init, k);
      SumOfIsMaskedTotal(init, k);
    }
  }

  /** A key's sum does not depend on the order of the rows. */
  lemma SumOfPermutation<K(!new)>(a: seq<(K, int)>, b: seq<(K, int)>, k: K)
    requires multiset(a) == multiset(b)
    ensures SumOf(a, k) == SumOf(b, k)
  {
    SumOfIsMaskedTotal(a, k);
    SumOfIsMaskedTotal(b, k);
    MapPermutation((p: (K, int)) => (p.0, if p.0 == k then p.1 else 0), a, b);
    TotalOfPermutation(Masked(a, k), Masked(b, k));
  }
}
