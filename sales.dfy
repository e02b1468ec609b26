/** The sales normalisation of clean.py: the yearly raw extracts are typed
    (timestamp built from the raw date and repaired time, price cast with a
    decimal comma rewritten to a dot, promo flag mapped to a boolean),
    concatenated, cleared of rows with a null, deduplicated keeping first
    occurrences, stripped of the raw date and time text, and ordered by time. */
module Sales {
  import opened Tables
  import opened Text

  /** A row of a yearly raw sales extract as read: every cell may be null. */
  datatype RawSale = RawSale(
    transactionId: Option<int>,
    transactionDate: Option<string>,
    transactionTime: Option<string>,
    storeId: Option<int>,
    staffId: Option<int>,
    customerId: Option<int>,
    productId: Option<int>,
    quantitySold: Option<int>,
    unitPrice: Option<string>,
    promoItem: Option<string>)

  /** The row once typed: price in cents, promo flag as a boolean and the
      derived `time` (seconds since 1970-01-01); the raw date and time text are
      still there. */
  datatype TypedSale = TypedSale(
    transactionId: Option<int>,
    transactionDate: Option<string>,
    transactionTime: Option<string>,
    storeId: Option<int>,
    staffId: Option<int>,
    customerId: Option<int>,
    productId: Option<int>,
    quantitySold: Option<int>,
    unitPrice: Option<int>,
    promoItem: Option<bool>,
    time: Option<int>)

  /** A typed row in which no cell is null. */
  datatype CompleteSale = CompleteSale(
    transactionId: int,
    transactionDate: string,
    transactionTime: string,
    storeId: int,
    staffId: int,
    customerId: int,
    productId: int,
    quantitySold: int,
    unitPrice: int,
    promoItem: bool,
    time: int)

  /** A cleaned sales line: raw date and time dropped, columns renamed
      (`transaction_id` to `id`, `quantity_sold` to `quantity`, `unit_price`
      to `price`, `promo_item_yn` to `is_promo`). */
  datatype Sale = Sale(
    id: int,
    storeId: int,
    staffId: int,
    customerId: int,
    productId: int,
    quantity: int,
    price: int,
    isPromo: bool,
    time: int)

  /** The strict timestamp parse or the strict price cast failed on a
      non-null cell; the whole stage fails. */
  datatype CastError = BadTimestamp(text: string) | BadPrice(text: string)

  /** Parser of the `%m/%d/%Y %H:%M:%S` timestamp text, to seconds since
      1970-01-01; None when the text does not parse. */
  type TimestampParser = string -> Option<int>

  /** A raw time with exactly one `:` (hours and minutes) gets `:00` seconds
      appended, so that both `H:MM` and `H:MM:SS` reach the parser with two
      colons; any other text is passed through unchanged. */
  function RepairTime(t: string): (r: string)
    ensures |r| >= |t| && r[..|t|] == t
    ensures CountChar(t, ':') == 1 ==> r == t + ":00"
    ensures CountChar(t, ':') != 1 ==> r == t
    ensures CountChar(t, ':') == 1 || CountChar(t, ':') == 2 ==> CountChar(r, ':') == 2
  {
    if CountChar(t, ':') == 1 then
      CountCharConcat(t, ":00", ':');
      assert CountChar(":00", ':') == 1 by {
        assert ":00"[..2] == ":0" && ":0"[..1] == ":" && ":"[..0] == [];
      }
      t + ":00"
    else t
  }

  /** `concat_str([transaction_date, repaired time])`: the two texts joined
      without a separator, null when either is null. */
  function StampText(r: RawSale): (s: Option<string>)
    ensures s.Some? <==> r.transactionDate.Some? && r.transactionTime.Some?
  {
    if r.transactionDate.Some? && r.transactionTime.Some? then
      Some(r.transactionDate.value + RepairTime(r.transactionTime.value))
    else None
  }

  /** Types one raw row.  A present timestamp text that does not parse, or a
      present price that does not cast, fails (the timestamp is checked
      first); nulls stay null. */
  function TypeRow(r: RawSale, parse: TimestampParser): (t: Result<TypedSale, CastError>)
    ensures t.Ok? <==>
      (StampText(r).Some? ==> parse(StampText(r).value).Some?) &&
      (r.unitPrice.Some? ==> CastPrice(r.unitPrice.value).Some?)
    ensures t.Ok? ==>
      && t.value.transactionId == r.transactionId && t.value.storeId == r.storeId
      && t.value.staffId == r.staffId && t.value.customerId == r.customerId
      && t.value.productId == r.productId && t.value.quantitySold == r.quantitySold
      && t.value.transactionDate == r.transactionDate && t.value.transactionTime == r.transactionTime
      && (r.unitPrice.Some? <==> t.value.unitPrice.Some?)
      && (r.unitPrice.Some? ==> t.value.unitPrice == CastPrice(r.unitPrice.value))
      && (t.value.promoItem == Some(true) <==> r.promoItem == Some("Y"))
      && (t.value.promoItem == Some(false) <==> r.promoItem == Some("N"))
      && (t.value.time.Some? <==> r.transactionDate.Some? && r.transactionTime.Some?)
      && (t.value.time.Some? ==>
            t.value.time == parse(r.transactionDate.value + RepairTime(r.transactionTime.value)))
  {
    var stamp := StampText(r);
    if stamp.Some? && parse(stamp.value).None? then Err(BadTimestamp(stamp.value))
    else if r.unitPrice.Some? && CastPrice(r.unitPrice.value).None? then Err(BadPrice(r.unitPrice.value))
    else
      Ok(TypedSale(
        r.transactionId, r.transactionDate, r.transactionTime,
        r.storeId, r.staffId, r.customerId, r.productId, r.quantitySold,
        if r.unitPrice.Some? then CastPrice(r.unitPrice.value) else None,
        YesNo(r.promoItem),
        if stamp.Some? then parse(stamp.value) else None))
  }

  /** Types every row; the first row that fails makes the whole table fail. */
  function TypeRows(rows: seq<RawSale>, parse: TimestampParser): (r: Result<seq<TypedSale>, CastError>)
    ensures r.Ok? <==> forall i :: 0 <= i < |rows| ==> TypeRow(rows[i], parse).Ok?
    ensures r.Ok? ==> (|r.value| == |rows| &&
      forall i :: 0 <= i < |rows| ==> r.value[i] == TypeRow(rows[i], parse).value)
  {
    AllOk(rows, (x: RawSale) => TypeRow(x, parse))
  }

  /** No cell of the typed row is null. */
  predicate IsComplete(t: TypedSale) {
    && t.transactionId.Some? && t.transactionDate.Some? && t.transactionTime.Some?
    && t.storeId.Some? && t.staffId.Some? && t.customerId.Some? && t.productId.Some?
    && t.quantitySold.Some? && t.unitPrice.Some? && t.promoItem.Some? && t.time.Some?
  }

  function Complete(t: TypedSale): CompleteSale
    requires IsComplete(t)
  {
    CompleteSale(
      t.transactionId.value, t.transactionDate.value, t.transactionTime.value,
      t.storeId.value, t.staffId.value, t.customerId.value, t.productId.value,
      t.quantitySold.value, t.unitPrice.value, t.promoItem.value, t.time.value)
  }

  /** `drop_nulls()`: the rows without a null, in their order. */
  function DropNulls(rows: seq<TypedSale>): (r: seq<CompleteSale>)
    ensures forall c :: c in r <==> exists t :: t in rows && IsComplete(t) && Complete(t) == c
    ensures |r| <= |rows|
  {
    if rows == [] then []
    else
      var init, last := rows[..|rows| - 1], rows[|rows| - 1];
      assert rows == init + [last];
      DropNulls(init) + if IsComplete(last) then [Complete(last)] else []
  }

  /** Drops the raw date and time text and renames the other columns. */
  function Clean(c: CompleteSale): Sale {
    Sale(c.transactionId, c.storeId, c.staffId, c.customerId, c.productId,
         c.quantitySold, c.unitPrice, c.promoItem, c.time)
  }

  function CleanAll(rows: seq<CompleteSale>): seq<Sale> {
    seq(|rows|, i requires 0 <= i < |rows| => Clean(rows[i]))
  }

  /** Sales lines in time order. */
  predicate TimeLe(a: Sale, b: Sale) {
    a.time <= b.time
  }

  lemma TimeLeIsTotalPreorder()
    ensures TotalPreorder(TimeLe)
  {
  }

  /** The whole sales stage of clean.py. */
  function Normalise(years: seq<seq<RawSale>>, parse: TimestampParser): (r: Result<seq<Sale>, CastError>)
    ensures r.Ok? <==> forall x :: x in Concat(years) ==> TypeRow(x, parse).Ok?
    ensures r.Ok? ==> SortedBy(r.value, TimeLe)
  {
    var rows := Concat(years);
    match TypeRows(rows, parse)
    case Err(e) =>
      assert exists i :: 0 <= i < |rows| && !TypeRow(rows[i], parse).Ok?;
      Err(e)
    case Ok(typed) =>
      TimeLeIsTotalPreorder();
      Ok(SortBy(CleanAll(Unique(DropNulls(typed))), TimeLe))
  }

  /** The rows of the typed table, once every raw row has typed. */
  function Typed(years: seq<seq<RawSale>>, parse: TimestampParser): seq<TypedSale>
    requires Normalise(years, parse).Ok?
  {
    TypeRows(Concat(years), parse).value
  }

  /** A raw row survives the null filter: it types, and none of its typed
      cells is null. */
  predicate Kept(x: RawSale, parse: TimestampParser) {
    TypeRow(x, parse).Ok? && IsComplete(TypeRow(x, parse).value)
  }

  /** A row that types is kept exactly when none of its raw cells is null and
      its promo flag is `Y` or `N`: any other flag maps to null and the row is
      dropped. */
  lemma KeptIff(x: RawSale, parse: TimestampParser)
    requires TypeRow(x, parse).Ok?
    ensures Kept(x, parse) <==>
      && x.transactionId.Some? && x.transactionDate.Some? && x.transactionTime.Some?
      && x.storeId.Some? && x.staffId.Some? && x.customerId.Some? && x.productId.Some?
      && x.quantitySold.Some? && x.unitPrice.Some?
      && (x.promoItem == Some("Y") || x.promoItem == Some("N"))
  {
  }

  /** Sale `s` is the cleaned form of raw row `x`: the ids, quantity and
      customer are copied, the price is the cast of the raw text (decimal
      comma read as a dot), the promo flag is true iff the raw flag is `Y`
      (and the raw flag is `Y` or `N`), and the time is the parse of the raw
      date followed by the repaired raw time. */
  predicate CleanedFrom(s: Sale, x: RawSale, parse: TimestampParser) {
    && x.transactionId == Some(s.id) && x.storeId == Some(s.storeId) && x.staffId == Some(s.staffId)
    && x.customerId == Some(s.customerId) && x.productId == Some(s.productId)
    && x.quantitySold == Some(s.quantity)
    && x.unitPrice.Some? && CastPrice(x.unitPrice.value) == Some(s.price)
    && x.promoItem == Some(if s.isPromo then "Y" else "N")
    && x.transactionDate.Some? && x.transactionTime.Some?
    && parse(x.transactionDate.value + RepairTime(x.transactionTime.value)) == Some(s.time)
  }

  /** The cleaned form of a kept raw row holds the raw cells, typed. */
  lemma CleanedRow(x: RawSale, parse: TimestampParser)
    requires Kept(x, parse)
    ensures CleanedFrom(Clean(Complete(TypeRow(x, parse).value)), x, parse)
  {
  }

  /** The cleaned table holds exactly the cleaned forms of the kept raw rows,
      each with the typed values of its raw cells. */
  lemma NormaliseRows(years: seq<seq<RawSale>>, parse: TimestampParser)
    requires Normalise(years, parse).Ok?
    ensures forall s :: s in Normalise(years, parse).value ==>
      exists x :: x in Concat(years) && Kept(x, parse) && s == Clean(Complete(TypeRow(x, parse).value)) &&
        CleanedFrom(s, x, parse)
    ensures forall x :: x in Concat(years) && Kept(x, parse) ==>
      Clean(Complete(TypeRow(x, parse).value)) in Normalise(years, parse).value
  {
    forall s | s in Normalise(years, parse).value
      ensures exists x ::
        x in Concat(years) && Kept(x, parse) && s == Clean(Complete(TypeRow(x, parse).value)) && CleanedFrom(s, x, parse)
    {
      var x := NormalisedSource(years, parse, s);
    }
    forall x | x in Concat(years) && Kept(x, parse)
      ensures Clean(Complete(TypeRow(x, parse).value)) in Normalise(years, parse).value
    {
      NormalisedTarget(years, parse, x);
    }
  }

  /** The kept raw row a cleaned sale comes from. */
  lemma NormalisedSource(years: seq<seq<RawSale>>, parse: TimestampParser, s: Sale) returns (x: RawSale)
    requires Normalise(years, parse).Ok? && s in Normalise(years, parse).value
    ensures x in Concat(years) && Kept(x, parse) && s == Clean(Complete(TypeRow(x, parse).value))
    ensures CleanedFrom(s, x, parse)
  {
    var rows := Concat(years);
    var typed := Typed(years, parse);
    var kept := Unique(DropNulls(typed));
    assert multiset(Normalise(years, parse).value) == multiset(CleanAll(kept));
    assert s in multiset(CleanAll(kept));
    var i :| 0 <= i < |kept| && CleanAll(kept)[i] == s;
    var j := TypedIndex(rows, parse, typed, kept[i]);
    x := rows[j];
    CleanedRow(x, parse);
  }

  /** A kept raw row reaches the cleaned table. */
  lemma NormalisedTarget(years: seq<seq<RawSale>>, parse: TimestampParser, x: RawSale)
    requires Normalise(years, parse).Ok? && x in Concat(years) && Kept(x, parse)
    ensures Clean(Complete(TypeRow(x, parse).value)) in Normalise(years, parse).value
  {
    var rows := Concat(years);
    var typed := Typed(years, parse);
    var j :| 0 <= j < |rows| && rows[j] == x;
    var t := typed[j];
    assert t == TypeRow(x, parse).value && IsComplete(t);
    var c := Complete(t);
    assert c in DropNulls(typed) by { assert t in typed; }
    var kept := Unique(DropNulls(typed));
    assert c in kept;
    var i :| 0 <= i < |kept| && kept[i] == c;
    assert CleanAll(kept)[i] == Clean(c);
    assert Clean(c) in multiset(CleanAll(kept));
    assert multiset(Normalise(years, parse).value) == multiset(CleanAll(kept));
  }

  /** A row that passed the null filter comes from some raw row. */
  lemma TypedIndex(rows: seq<RawSale>, parse: TimestampParser, typed: seq<TypedSale>, c: CompleteSale) returns (j: nat)
    requires TypeRows(rows, parse).Ok? && typed == TypeRows(rows, parse).value
    requires c in DropNulls(typed)
    ensures j < |rows| && Kept(rows[j], parse) && Complete(TypeRow(rows[j], parse).value) == c
  {
    var t :| t in typed && IsComplete(t) && Complete(t) == c;
    var k :| 0 <= k < |typed| && typed[k] == t;
    j := k;
  }

  /** One output line per distinct complete typed row: the deduplication sees
      the whole typed row, raw date and time text included. */
  lemma NormaliseCount(years: seq<seq<RawSale>>, parse: TimestampParser)
    requires Normalise(years, parse).Ok?
    ensures |Normalise(years, parse).value| == |set c | c in DropNulls(Typed(years, parse))|
  {
    var kept := Unique(DropNulls(Typed(years, parse)));
    DistinctCardinality(kept);
    assert (set c | c in kept) == (set c | c in DropNulls(Typed(years, parse)));
  }

  /** The worked example of a time given without seconds. */
  lemma RepairTimeExample()
    ensures RepairTime("9:30") == "9:30:00"
    ensures RepairTime("9:30:00") == "9:30:00"
  {
    assert CountChar("9:30", ':') == 1 by {
      assert "9:30"[..3] == "9:3" && "9:3"[..2] == "9:" && "9:"[..1] == "9" && "9"[..0] == [];
    }
    assert CountChar("9:30:00", ':') == 2 by {
      assert "9:30:00"[..6] == "9:30:0" && "9:30:0"[..5] == "9:30:";
      assert "9:30:"[..4] == "9:30" && "9:30"[..3] == "9:3" && "9:3"[..2] == "9:";
      assert "9:"[..1] == "9" && "9"[..0] == [];
    }
  }
}
