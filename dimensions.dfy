/** The dimension tables of clean.py: customer, employee, store and product.
    Each raw table has its date columns parsed strictly, its categorical
    cells remapped, its rows with a null dropped (except the store table),
    its duplicate rows removed keeping the first, some columns dropped and
    the rest renamed, and is sorted by id.  Columns the script neither names
    nor changes are carried along as `other`. */
module Dimensions {
  import opened Tables
  import opened Text

  /** A calendar date as `strptime(Date, '%m/%d/%Y')` produces it. */
  datatype Date = Date(year: int, month: int, day: int)

  /** Parser of the `%m/%d/%Y` date text; None when the text does not parse. */
  type DateParser = string -> Option<Date>

  /** A present date text did not parse; the whole table fails. */
  datatype DateError = BadDate(text: string)

  /** The year the customer ages are counted up to. */
  const ReferenceYear := 2022

  /** A strict date parse of one cell: null stays null, a text that does not
      parse fails. */
  function ParseDate(cell: Option<string>, parse: DateParser): (r: Result<Option<Date>, DateError>)
    ensures r.Ok? <==> (cell.Some? ==> parse(cell.value).Some?)
    ensures r.Ok? ==> (r.value.Some? <==> cell.Some?) && (cell.Some? ==> r.value == parse(cell.value))
  {
    match cell
    case None => Ok(None)
    case Some(text) => if parse(text).Some? then Ok(parse(text)) else Err(BadDate(text))
  }

  /** The values of a row's other cells, or None when one of them is null. */
  function Present(cells: seq<Option<string>>): (r: Option<seq<string>>)
    ensures r.Some? <==> forall i :: 0 <= i < |cells| ==> cells[i].Some?
    ensures r.Some? ==> |r.value| == |cells| && forall i :: 0 <= i < |cells| ==> r.value[i] == cells[i].value
  {
    if forall i :: 0 <= i < |cells| ==> cells[i].Some? then
      Some(seq(|cells|, i requires 0 <= i < |cells| && cells[i].Some? => cells[i].value))
    else None
  }

  /** `drop_nulls().unique(maintain_order=True)`, then the dropped and
      renamed columns (`finish`), then `sort('id')`: exactly the finished
      forms of the complete rows, in order. */
  function Tidy<A(!new), B(==,!new), C(==,!new)>(typed: seq<A>, complete: A -> Option<B>, finish: B -> C, le: (C, C) -> bool): (r: seq<C>)
    requires TotalPreorder(le)
    ensures SortedBy(r, le)
    ensures forall c :: c in r <==> exists t :: t in typed && complete(t).Some? && c == finish(complete(t).value)
    ensures |r| <= |typed|
  {
    var kept := Unique(Somes(Map(complete, typed)));
    var r := SortBy(Map(finish, kept), le);
    TidyMembers(typed, complete, finish, kept, r);
    r
  }

  lemma TidyMembers<A(!new), B(!new), C(!new)>(typed: seq<A>, complete: A -> Option<B>, finish: B -> C, kept: seq<B>, r: seq<C>)
    requires kept == Unique(Somes(Map(complete, typed)))
    requires multiset(r) == multiset(Map(finish, kept))
    ensures forall c :: c in r <==> exists t :: t in typed && complete(t).Some? && c == finish(complete(t).value)
  {
    MapMembers(complete, typed);
    MapMembers(finish, kept);
    forall c ensures c in r <==> c in Map(finish, kept) {
      assert c in r <==> c in multiset(r);
    }
    forall c | c in r ensures exists t :: t in typed && complete(t).Some? && c == finish(complete(t).value) {
      var b :| b in kept && c == finish(b);
      var t :| t in typed && Some(b) == complete(t);
    }
    forall t | t in typed && complete(t).Some? ensures finish(complete(t).value) in r {
      assert Some(complete(t).value) in Map(complete, typed);
    }
  }

  // ---- customer -----------------------------------------------------------

  /** A row of the raw customer file as read. */
  datatype RawCustomer = RawCustomer(
    customerId: Option<int>,
    homeStore: Option<int>,
    firstName: Option<string>,
    email: Option<string>,
    customerSince: Option<string>,
    loyaltyCardNumber: Option<string>,
    birthdate: Option<string>,
    gender: Option<string>,
    other: seq<Option<string>>)

  /** The row with its dates parsed and its gender remapped. */
  datatype TypedCustomer = TypedCustomer(
    customerId: Option<int>,
    homeStore: Option<int>,
    firstName: Option<string>,
    email: Option<string>,
    customerSince: Option<Date>,
    loyaltyCardNumber: Option<string>,
    birthdate: Option<Date>,
    gender: Option<string>,
    other: seq<Option<string>>)

  /** A typed row without a null. */
  datatype CompleteCustomer = CompleteCustomer(
    customerId: int,
    homeStore: int,
    firstName: string,
    email: string,
    customerSince: Date,
    loyaltyCardNumber: string,
    birthdate: Date,
    gender: string,
    other: seq<string>)

  /** A cleaned customer: `customer_id` renamed `id`, `home_store` renamed
      `store`, `customer_since` renamed `since`, the derived `age`; the birth
      date, first name, email and loyalty card number dropped. */
  datatype Customer = Customer(id: int, store: int, since: Date, gender: string, other: seq<string>, age: int)

  /** `str.replace('Not Specified', 'na')`: the placeholder becomes `na`,
      a gender without it is left as it is. */
  function Gender(g: string): (r: string)
    ensures g == "Not Specified" ==> r == "na"
    ensures (forall i :: !OccursAt(g, "Not Specified", i)) ==> r == g
  {
    assert g == "Not Specified" ==> OccursAt(g, "Not Specified", 0);
    ReplaceFirst(g, "Not Specified", "na")
  }

  /** The gender codes of the raw file: `M` and `F` stay, the placeholder
      becomes `na`. */
  lemma GenderExamples()
    ensures Gender("M") == "M" && Gender("F") == "F" && Gender("Not Specified") == "na"
  {
    assert forall i :: !OccursAt("M", "Not Specified", i);
    assert forall i :: !OccursAt("F", "Not Specified", i);
  }

  /** `birthdate` and `customer_since` parsed strictly, `gender` remapped. */
  function TypeCustomer(x: RawCustomer, parse: DateParser): (t: Result<TypedCustomer, DateError>)
    ensures t.Ok? <==>
      (x.birthdate.Some? ==> parse(x.birthdate.value).Some?) &&
      (x.customerSince.Some? ==> parse(x.customerSince.value).Some?)
  {
    match ParseDate(x.birthdate, parse)
    case Err(e) => Err(e)
    case Ok(birth) =>
      match ParseDate(x.customerSince, parse)
      case Err(e) => Err(e)
      case Ok(since) =>
        Ok(TypedCustomer(
          x.customerId, x.homeStore, x.firstName, x.email, since, x.loyaltyCardNumber, birth,
          if x.gender.Some? then Some(Gender(x.gender.value)) else None,
          x.other))
  }

  function CompleteCustomerOf(t: TypedCustomer): Option<CompleteCustomer> {
    if && t.customerId.Some? && t.homeStore.Some? && t.firstName.Some? && t.email.Some?
       && t.customerSince.Some? && t.loyaltyCardNumber.Some? && t.birthdate.Some?
       && t.gender.Some? && Present(t.other).Some?
    then
      Some(CompleteCustomer(
        t.customerId.value, t.homeStore.value, t.firstName.value, t.email.value,
        t.customerSince.value, t.loyaltyCardNumber.value, t.birthdate.value,
        t.gender.value, Present(t.other).value))
    else None
  }

  function FinishCustomer(c: CompleteCustomer): Customer {
    Customer(c.customerId, c.homeStore, c.customerSince, c.gender, c.other, ReferenceYear - c.birthdate.year)
  }

  predicate CustomerIdLe(a: Customer, b: Customer) {
    a.id <= b.id
  }

  /** The customer stage of clean.py. */
  function CleanCustomers(rows: seq<RawCustomer>, parse: DateParser): (r: Result<seq<Customer>, DateError>)
    ensures r.Ok? <==> forall i :: 0 <= i < |rows| ==> TypeCustomer(rows[i], parse).Ok?
    ensures r.Ok? ==> SortedBy(r.value, CustomerIdLe) && |r.value| <= |rows|
  {
    match AllOk(rows, (x: RawCustomer) => TypeCustomer(x, parse))
    case Err(e) => Err(e)
    case Ok(typed) => Ok(Tidy(typed, CompleteCustomerOf, FinishCustomer, CustomerIdLe))
  }

  /** A raw customer survives the null filter. */
  predicate CustomerKept(x: RawCustomer, parse: DateParser) {
    TypeCustomer(x, parse).Ok? && CompleteCustomerOf(TypeCustomer(x, parse).value).Some?
  }

  /** A row whose dates parse is kept exactly when no raw cell is null: the
      email and the loyalty card number count although they are dropped
      afterwards. */
  lemma CustomerKeptIff(x: RawCustomer, parse: DateParser)
    requires TypeCustomer(x, parse).Ok?
    ensures CustomerKept(x, parse) <==>
      && x.customerId.Some? && x.homeStore.Some? && x.firstName.Some? && x.email.Some?
      && x.customerSince.Some? && x.loyaltyCardNumber.Some? && x.birthdate.Some?
      && x.gender.Some? && forall i :: 0 <= i < |x.other| ==> x.other[i].Some?
  {
  }

  /** The cleaned customer of a kept raw row, read off the raw cells: the
      gender remapped and the age 2022 minus the year of birth. */
  function CustomerOf(x: RawCustomer, parse: DateParser): Customer
    requires CustomerKept(x, parse)
  {
    Customer(
      x.customerId.value, x.homeStore.value, parse(x.customerSince.value).value,
      Gender(x.gender.value), Present(x.other).value,
      ReferenceYear - parse(x.birthdate.value).value.year)
  }

  /** The cleaned table holds exactly the customers of the kept raw rows. */
  lemma CleanCustomersRows(rows: seq<RawCustomer>, parse: DateParser)
    requires CleanCustomers(rows, parse).Ok?
    ensures forall c :: c in CleanCustomers(rows, parse).value <==>
      exists x :: x in rows && CustomerKept(x, parse) && c == CustomerOf(x, parse)
  {
    var f := (x: RawCustomer) => TypeCustomer(x, parse);
    var typed := AllOk(rows, f).value;
    var r := CleanCustomers(rows, parse).value;
    assert r == Tidy(typed, CompleteCustomerOf, FinishCustomer, CustomerIdLe);
    forall c | c in r ensures exists x :: x in rows && CustomerKept(x, parse) && c == CustomerOf(x, parse) {
      var t :| t in typed && CompleteCustomerOf(t).Some? && c == FinishCustomer(CompleteCustomerOf(t).value);
      AllOkMembers(rows, f, t);
      var x :| x in rows && t == f(x).value;
      CustomerOfIsFinished(x, parse);
    }
    forall x | x in rows && CustomerKept(x, parse) ensures CustomerOf(x, parse) in r {
      AllOkMembers(rows, f, f(x).value);
      CustomerOfIsFinished(x, parse);
    }
  }

  lemma CustomerOfIsFinished(x: RawCustomer, parse: DateParser)
    requires TypeCustomer(x, parse).Ok?
    ensures CustomerKept(x, parse) <==> CompleteCustomerOf(TypeCustomer(x, parse).value).Some?
    ensures CustomerKept(x, parse) ==>
      CustomerOf(x, parse) == FinishCustomer(CompleteCustomerOf(TypeCustomer(x, parse).value).value)
  {
  }

  // ---- employee -----------------------------------------------------------

  /** A row of the raw employee file as read. */
  datatype RawEmployee = RawEmployee(
    staffId: Option<int>,
    firstName: Option<string>,
    lastName: Option<string>,
    startDate: Option<string>,
    endDate: Option<string>,
    other: seq<Option<string>>)

  /** The row with `start_date` parsed and the names and end date dropped. */
  datatype TypedEmployee = TypedEmployee(staffId: Option<int>, startDate: Option<Date>, other: seq<Option<string>>)

  datatype CompleteEmployee = CompleteEmployee(staffId: int, startDate: Date, other: seq<string>)

  /** A cleaned employee: `staff_id` renamed `id`, `start_date` renamed
      `onboard`. */
  datatype Employee = Employee(id: int, onboard: Date, other: seq<string>)

  function TypeEmployee(x: RawEmployee, parse: DateParser): (t: Result<TypedEmployee, DateError>)
    ensures t.Ok? <==> (x.startDate.Some? ==> parse(x.startDate.value).Some?)
  {
    match ParseDate(x.startDate, parse)
    case Err(e) => Err(e)
    case Ok(start) => Ok(TypedEmployee(x.staffId, start, x.other))
  }

  function CompleteEmployeeOf(t: TypedEmployee): Option<CompleteEmployee> {
    if t.staffId.Some? && t.startDate.Some? && Present(t.other).Some? then
      Some(CompleteEmployee(t.staffId.value, t.startDate.value, Present(t.other).value))
    else None
  }

  function FinishEmployee(c: CompleteEmployee): Employee {
    Employee(c.staffId, c.startDate, c.other)
  }

  predicate EmployeeIdLe(a: Employee, b: Employee) {
    a.id <= b.id
  }

  /** The employee stage of clean.py. */
  function CleanEmployees(rows: seq<RawEmployee>, parse: DateParser): (r: Result<seq<Employee>, DateError>)
    ensures r.Ok? <==> forall i :: 0 <= i < |rows| ==> TypeEmployee(rows[i], parse).Ok?
    ensures r.Ok? ==> SortedBy(r.value, EmployeeIdLe) && |r.value| <= |rows|
  {
    match AllOk(rows, (x: RawEmployee) => TypeEmployee(x, parse))
    case Err(e) => Err(e)
    case Ok(typed) => Ok(Tidy(typed, CompleteEmployeeOf, FinishEmployee, EmployeeIdLe))
  }

  predicate EmployeeKept(x: RawEmployee, parse: DateParser) {
    TypeEmployee(x, parse).Ok? && CompleteEmployeeOf(TypeEmployee(x, parse).value).Some?
  }

  /** The names and the end date are dropped before the null filter, so a
      row is kept whatever they hold: only the id, the start date and the
      other cells must be present. */
  lemma EmployeeKeptIff(x: RawEmployee, parse: DateParser)
    requires TypeEmployee(x, parse).Ok?
    ensures EmployeeKept(x, parse) <==>
      x.staffId.Some? && x.startDate.Some? && forall i :: 0 <= i < |x.other| ==> x.other[i].Some?
  {
  }

  /** A missing end date (an employee still in post) or missing names never
      remove an employee. */
  lemma EndDateIrrelevant(x: RawEmployee, parse: DateParser)
    requires TypeEmployee(x, parse).Ok?
    ensures EmployeeKept(x, parse) <==> EmployeeKept(x.(firstName := None, lastName := None, endDate := None), parse)
  {
    EmployeeKeptIff(x, parse);
    EmployeeKeptIff(x.(firstName := None, lastName := None, endDate := None), parse);
  }

  function EmployeeOf(x: RawEmployee, parse: DateParser): Employee
    requires EmployeeKept(x, parse)
  {
    Employee(x.staffId.value, parse(x.startDate.value).value, Present(x.other).value)
  }

  /** The cleaned table holds exactly the employees of the kept raw rows,
      each once: the deduplication sees the whole remaining row. */
  lemma CleanEmployeesRows(rows: seq<RawEmployee>, parse: DateParser)
    requires CleanEmployees(rows, parse).Ok?
    ensures forall e :: e in CleanEmployees(rows, parse).value <==>
      exists x :: x in rows && EmployeeKept(x, parse) && e == EmployeeOf(x, parse)
    ensures Distinct(CleanEmployees(rows, parse).value)
  {
    CleanEmployeesMembers(rows, parse);
    CleanEmployeesDistinct(rows, parse);
  }

  lemma CleanEmployeesMembers(rows: seq<RawEmployee>, parse: DateParser)
    requires CleanEmployees(rows, parse).Ok?
    ensures forall e :: e in CleanEmployees(rows, parse).value <==>
      exists x :: x in rows && EmployeeKept(x, parse) && e == EmployeeOf(x, parse)
  {
    var f := (x: RawEmployee) => TypeEmployee(x, parse);
    var typed := AllOk(rows, f).value;
    var r := CleanEmployees(rows, parse).value;
    assert r == Tidy(typed, CompleteEmployeeOf, FinishEmployee, EmployeeIdLe);
    forall e | e in r ensures exists x :: x in rows && EmployeeKept(x, parse) && e == EmployeeOf(x, parse) {
      var t :| t in typed && CompleteEmployeeOf(t).Some? && e == FinishEmployee(CompleteEmployeeOf(t).value);
      AllOkMembers(rows, f, t);
      var x :| x in rows && t == f(x).value;
      assert EmployeeKept(x, parse);
    }
    forall x | x in rows && EmployeeKept(x, parse) ensures EmployeeOf(x, parse) in r {
      AllOkMembers(rows, f, f(x).value);
    }
  }

  lemma CleanEmployeesDistinct(rows: seq<RawEmployee>, parse: DateParser)
    requires CleanEmployees(rows, parse).Ok?
    ensures Distinct(CleanEmployees(rows, parse).value)
  {
    var typed := AllOk(rows, (x: RawEmployee) => TypeEmployee(x, parse)).value;
    var r := CleanEmployees(rows, parse).value;
    var kept := Unique(Somes(Map(CompleteEmployeeOf, typed)));
    FinishEmployeeInjective(kept);
    assert r == SortBy(Map(FinishEmployee, kept), EmployeeIdLe);
    DistinctPermutation(r, Map(FinishEmployee, kept));
  }

  /** Renaming columns keeps distinct rows distinct. */
  lemma FinishEmployeeInjective(kept: seq<CompleteEmployee>)
    requires Distinct(kept)
    ensures Distinct(Map(FinishEmployee, kept))
  {
    forall i, j | 0 <= i < j < |kept| ensures Map(FinishEmployee, kept)[i] != Map(FinishEmployee, kept)[j] {
      var a, b := kept[i], kept[j];
      assert Map(FinishEmployee, kept)[i] == FinishEmployee(a);
      assert Map(FinishEmployee, kept)[j] == FinishEmployee(b);
      assert a == CompleteEmployee(FinishEmployee(a).id, FinishEmployee(a).onboard, FinishEmployee(a).other);
      assert b == CompleteEmployee(FinishEmployee(b).id, FinishEmployee(b).onboard, FinishEmployee(b).other);
    }
  }

  // ---- store --------------------------------------------------------------

  /** A row of the raw store file as read. */
  datatype RawStore = RawStore(
    storeId: Option<int>,
    storeType: Option<string>,
    storeSquareFeet: Option<int>,
    storeAddress: Option<string>,
    storeCity: Option<string>,
    storeStateProvince: Option<string>,
    storePostalCode: Option<string>,
    storeLongitude: Option<real>,
    storeLatitude: Option<real>,
    neighborhood: Option<string>,
    other: seq<Option<string>>)

  /** A cleaned store: the address columns dropped, the rest renamed; nulls
      are kept. */
  datatype Store = Store(
    id: Option<int>,
    storeType: Option<string>,
    squareFeet: Option<int>,
    longitude: Option<real>,
    latitude: Option<real>,
    other: seq<Option<string>>)

  function StoreOf(x: RawStore): Store {
    Store(x.storeId, x.storeType, x.storeSquareFeet, x.storeLongitude, x.storeLatitude, x.other)
  }

  /** `sort('id')` with its default of nulls first. */
  predicate StoreIdLe(a: Store, b: Store) {
    a.id.None? || (b.id.Some? && a.id.value <= b.id.value)
  }

  lemma StoreIdLeIsTotalPreorder()
    ensures TotalPreorder(StoreIdLe)
  {
  }

  /** The store stage of clean.py: columns dropped and renamed, duplicates
      removed, sorted by id; there is no null filter. */
  function CleanStores(rows: seq<RawStore>): (r: seq<Store>)
    ensures SortedBy(r, StoreIdLe)
    ensures Distinct(r)
    ensures forall s :: s in r <==> exists x :: x in rows && s == StoreOf(x)
  {
    StoreIdLeIsTotalPreorder();
    var u := Unique(Map(StoreOf, rows));
    var r := SortBy(u, StoreIdLe);
    DistinctPermutation(r, u);
    MapMembers(StoreOf, rows);
    forall s ensures s in r <==> s in u {
      assert s in r <==> s in multiset(r);
      assert s in u <==> s in multiset(u);
    }
    r
  }

  /** A store whose cells are null is still in the table: every raw row
      has its cleaned form in the output. */
  lemma StoresKeepNulls(rows: seq<RawStore>, x: RawStore)
    requires x in rows
    ensures StoreOf(x) in CleanStores(rows)
    ensures StoreOf(x).id == x.storeId
  {
  }

  /** One store row per distinct cleaned row. */
  lemma CleanStoresCount(rows: seq<RawStore>)
    ensures |CleanStores(rows)| == |set x | x in rows :: StoreOf(x)|
  {
    var r := CleanStores(rows);
    DistinctCardinality(r);
    assert (set s | s in r) == (set x | x in rows :: StoreOf(x));
  }

  // ---- product ------------------------------------------------------------

  /** A row of the raw product file as read; the three flags are `Y`/`N`
      text. */
  datatype RawProduct = RawProduct(
    productId: Option<int>,
    productGroup: Option<string>,
    productCategory: Option<string>,
    productType: Option<string>,
    product: Option<string>,
    productDescription: Option<string>,
    unitOfMeasure: Option<string>,
    currentCost: Option<int>,
    currentWholesalePrice: Option<int>,
    currentRetailPrice: Option<int>,
    taxExemptYn: Option<string>,
    promoYn: Option<string>,
    newProductYn: Option<string>,
    other: seq<Option<string>>)

  /** The row with the flags mapped to booleans. */
  datatype TypedProduct = TypedProduct(
    productId: Option<int>,
    productGroup: Option<string>,
    productCategory: Option<string>,
    productType: Option<string>,
    product: Option<string>,
    productDescription: Option<string>,
    unitOfMeasure: Option<string>,
    currentCost: Option<int>,
    currentWholesalePrice: Option<int>,
    currentRetailPrice: Option<int>,
    taxExemptYn: Option<bool>,
    promoYn: Option<bool>,
    newProductYn: Option<bool>,
    other: seq<Option<string>>)

  datatype CompleteProduct = CompleteProduct(
    productId: int,
    productGroup: string,
    productCategory: string,
    productType: string,
    product: string,
    productDescription: string,
    unitOfMeasure: string,
    currentCost: int,
    currentWholesalePrice: int,
    currentRetailPrice: int,
    taxExemptYn: bool,
    promoYn: bool,
    newProductYn: bool,
    other: seq<string>)

  /** A cleaned product: the description dropped, the columns renamed. */
  datatype Product = Product(
    id: int,
    group: string,
    category: string,
    productType: string,
    name: string,
    unit: string,
    cost: int,
    wholesale: int,
    retail: int,
    isTaxExempt: bool,
    isPromo: bool,
    isNew: bool,
    other: seq<string>)

  /** `map_dict({'N': False, 'Y': True})` on the three flag columns. */
  function TypeProduct(x: RawProduct): TypedProduct {
    TypedProduct(
      x.productId, x.productGroup, x.productCategory, x.productType, x.product,
      x.productDescription, x.unitOfMeasure, x.currentCost, x.currentWholesalePrice,
      x.currentRetailPrice, YesNo(x.taxExemptYn), YesNo(x.promoYn), YesNo(x.newProductYn), x.other)
  }

  function CompleteProductOf(t: TypedProduct): Option<CompleteProduct> {
    if && t.productId.Some? && t.productGroup.Some? && t.productCategory.Some?
       && t.productType.Some? && t.product.Some? && t.productDescription.Some?
       && t.unitOfMeasure.Some? && t.currentCost.Some? && t.currentWholesalePrice.Some?
       && t.currentRetailPrice.Some? && t.taxExemptYn.Some? && t.promoYn.Some?
       && t.newProductYn.Some? && Present(t.other).Some?
    then
      Some(CompleteProduct(
        t.productId.value, t.productGroup.value, t.productCategory.value, t.productType.value,
        t.product.value, t.productDescription.value, t.unitOfMeasure.value, t.currentCost.value,
        t.currentWholesalePrice.value, t.currentRetailPrice.value, t.taxExemptYn.value,
        t.promoYn.value, t.newProductYn.value, Present(t.other).value))
    else None
  }

  function FinishProduct(c: CompleteProduct): Product {
    Product(
      c.productId, c.productGroup, c.productCategory, c.productType, c.product,
      c.unitOfMeasure, c.currentCost, c.currentWholesalePrice, c.currentRetailPrice,
      c.taxExemptYn, c.promoYn, c.newProductYn, c.other)
  }

  predicate ProductIdLe(a: Product, b: Product) {
    a.id <= b.id
  }

  /** The product stage of clean.py. */
  function CleanProducts(rows: seq<RawProduct>): (r: seq<Product>)
    ensures SortedBy(r, ProductIdLe) && |r| <= |rows|
  {
    Tidy(Map(TypeProduct, rows), CompleteProductOf, FinishProduct, ProductIdLe)
  }

  predicate ProductKept(x: RawProduct) {
    CompleteProductOf(TypeProduct(x)).Some?
  }

  /** A product is kept exactly when no raw cell is null and each flag is
      `Y` or `N`: any other flag text maps to null and drops the row. */
  lemma ProductKeptIff(x: RawProduct)
    ensures ProductKept(x) <==>
      && x.productId.Some? && x.productGroup.Some? && x.productCategory.Some?
      && x.productType.Some? && x.product.Some? && x.productDescription.Some?
      && x.unitOfMeasure.Some? && x.currentCost.Some? && x.currentWholesalePrice.Some?
      && x.currentRetailPrice.Some?
      && (x.taxExemptYn == Some("Y") || x.taxExemptYn == Some("N"))
      && (x.promoYn == Some("Y") || x.promoYn == Some("N"))
      && (x.newProductYn == Some("Y") || x.newProductYn == Some("N"))
      && forall i :: 0 <= i < |x.other| ==> x.other[i].Some?
  {
  }

  /** The cleaned table holds exactly the kept raw products, each flag true
      exactly when it read `Y`. */
  lemma CleanProductsRows(rows: seq<RawProduct>)
    ensures forall p :: p in CleanProducts(rows) <==>
      exists x :: x in rows && ProductKept(x) && p == FinishProduct(CompleteProductOf(TypeProduct(x)).value)
    ensures forall p :: p in CleanProducts(rows) ==>
      exists x :: x in rows && ProductKept(x) && p.id == x.productId.value &&
        (p.isTaxExempt <==> x.taxExemptYn == Some("Y")) &&
        (p.isPromo <==> x.promoYn == Some("Y")) &&
        (p.isNew <==> x.newProductYn == Some("Y"))
  {
    MapMembers(TypeProduct, rows);
  }
}
