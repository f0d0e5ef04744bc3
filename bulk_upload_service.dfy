/** BulkUploadService.uploadProducts: the first sheet of a workbook, one
    product per row after the header. Each row is validated on its own; a
    good row is saved, a bad one is reported, and neither stops the rest. */
module BulkUploadService {
  import opened Wrappers
  import opened Text
  import opened Store
  import opened Decimals
  import opened ProductEntity
  import Catalog

  /** A spreadsheet cell by its type. A numeric cell holds a double; the
      model keeps the decimal value that double prints as. BLANK, FORMULA
      and ERROR cells are `OtherCell`. */
  datatype Cell = StringCell(text: string) | NumericCell(number: Decimal) | BooleanCell(flag: bool) | OtherCell

  /** A row: `getCell(i)` is None when the cell does not exist. */
  type Row = seq<Option<Cell>>

  function GetCell(row: Row, i: nat): Option<Cell> {
    if i < |row| then row[i] else None
  }

  /** getCellValueAsString: string cells trimmed, numbers through `(long)`,
      booleans as "true"/"false", anything else null. */
  function CellString(c: Option<Cell>): (r: Option<string>)
    ensures c.None? ==> r.None?
    ensures c.Some? && c.value.StringCell? ==> r == Some(Trim(c.value.text))
    ensures c.Some? && c.value.NumericCell? ==> r == Some(IntToString(ToLong(c.value.number)))
    ensures c.Some? && c.value.BooleanCell? ==> r == Some(if c.value.flag then "true" else "false")
    ensures c.Some? && c.value.OtherCell? ==> r.None?
  {
    match c
    case None => None
    case Some(StringCell(t)) => Some(Trim(t))
    case Some(NumericCell(d)) => Some(IntToString(ToLong(d)))
    case Some(BooleanCell(b)) => Some(if b then "true" else "false")
    case Some(OtherCell) => None
  }

  /** getCellValueAsBigDecimal: a number as it is, a string through the
      BigDecimal constructor (null when it does not parse), else null. */
  function CellDecimal(c: Option<Cell>): (r: Option<Decimal>)
    ensures c.None? ==> r.None?
    ensures c.Some? && c.value.NumericCell? ==> r == Some(c.value.number)
    ensures c.Some? && c.value.StringCell? ==> r == ParseDecimal(Trim(c.value.text))
    ensures c.Some? && (c.value.BooleanCell? || c.value.OtherCell?) ==> r.None?
  {
    match c
    case None => None
    case Some(NumericCell(d)) => Some(d)
    case Some(StringCell(t)) => ParseDecimal(Trim(t))
    case Some(_) => None
  }

  /** getCellValueAsInteger: a number through `(int)`, a string through
      `Integer.parseInt` (null when it does not parse), else null. */
  function CellInteger(c: Option<Cell>): (r: Option<int>)
    ensures c.None? ==> r.None?
    ensures r.Some? ==> InInt32(r.value)
    ensures c.Some? && c.value.NumericCell? ==> r == Some(ToInt(c.value.number))
    ensures c.Some? && c.value.StringCell? ==> r == ParseInt(Trim(c.value.text))
    ensures c.Some? && (c.value.BooleanCell? || c.value.OtherCell?) ==> r.None?
  {
    match c
    case None => None
    case Some(NumericCell(d)) => Some(ToInt(d))
    case Some(StringCell(t)) => ParseInt(Trim(t))
    case Some(_) => None
  }

  /** The words a string cell may use for true. */
  predicate IsTrueWord(v: string) { v == "true" || v == "yes" || v == "1" }

  /** getCellValueAsBoolean: never null; a missing cell, a formula or blank
      cell, and a number other than one are false, a boolean cell keeps its
      value. */
  function CellBoolean(c: Option<Cell>): (r: bool)
    ensures r ==> c.Some? && !c.value.OtherCell?
    ensures c.Some? && c.value.BooleanCell? ==> r == c.value.flag
    ensures c.Some? && c.value.NumericCell? ==> (r <==> IsOne(c.value.number))
  {
    match c
    case None => false
    case Some(BooleanCell(b)) => b
    case Some(StringCell(t)) => IsTrueWord(LowerCase(Trim(t)))
    case Some(NumericCell(d)) => IsOne(d)
    case Some(OtherCell) => false
  }

  /** The cell parsers read back what a user would type: a number string
      gives its value, a whole number cell gives that number, a string
      cell is true exactly for "true", "yes" or "1" in any letter case
      after trimming, and every decimal written out parses back. */
  lemma CellParsers(n: int, d: Decimal, t: string)
    requires InInt32(n)
    ensures CellInteger(Some(StringCell(IntToString(n)))) == Some(n)
    ensures CellInteger(Some(NumericCell(Decimal(n, 0)))) == Some(n)
    ensures CellDecimal(Some(StringCell(DecimalToString(d)))) == Some(d)
    ensures CellBoolean(Some(StringCell(t))) <==> IsTrueWord(LowerCase(Trim(t)))
    ensures !CellBoolean(None)
  {
    IntToStringParseInt(n);
    IntToStringTrimmed(n);
    TruncateIntegral(n);
    DecimalRoundTrip(d);
    DecimalStringTrimmed(d);
  }

  lemma IntToStringTrimmed(n: int)
    ensures Trim(IntToString(n)) == IntToString(n)
  {
    var s := IntToString(n);
    assert !IsTrimmed(s[0]) && !IsTrimmed(s[|s| - 1]);
  }

  lemma DecimalStringTrimmed(d: Decimal)
    ensures Trim(DecimalToString(d)) == DecimalToString(d)
  {
    var s := DecimalToString(d);
    var tail := IntToString(d.exponent);
    assert s == IntToString(d.unscaled) + "E" + tail;
    assert s[|s| - 1] == tail[|tail| - 1];
    assert !IsTrimmed(s[0]) && !IsTrimmed(s[|s| - 1]);
  }

  datatype RowError =
    | NameRequired                  // "Product name is required"
    | PriceRequired                 // "Valid price is required"
    | StockRequired                 // "Valid stock quantity is required"
    | CategoryRequired              // "Category is required"
    | BrandRequired                 // "Brand is required"
    | CategoryNotFound(name: string) // "Category '<name>' not found"
    | BrandNotFound(name: string)    // "Brand '<name>' not found"

  predicate Present(s: Option<string>) { s.Some? && !IsBlank(s.value) }

  /** What a row must satisfy to be imported. */
  predicate RowAccepted(row: Row, categories: map<nat, Catalog.Entry>, brands: map<nat, Catalog.Entry>) {
    && Present(CellString(GetCell(row, 0)))
    && CellDecimal(GetCell(row, 2)).Some? && IsPositive(CellDecimal(GetCell(row, 2)).value)
    && CellInteger(GetCell(row, 4)).Some? && CellInteger(GetCell(row, 4)).value >= 0
    && Present(CellString(GetCell(row, 5)))
    && Present(CellString(GetCell(row, 6)))
    && Catalog.NameUsed(categories, CellString(GetCell(row, 5)).value)
    && Catalog.NameUsed(brands, CellString(GetCell(row, 6)).value)
  }

  /** parseRowToProduct: columns name, description, price, discount price,
      stock, category, brand, image, size, weight, ingredients, featured.
      The checks run in that order; category and brand are looked up by
      their exact name; the first check that fails gives the row's error.
      A row is imported exactly when it passes every check, and the product
      built from it carries the row's values:
      active, not yet viewed or sold, linked to the named category and
      brand. */
  function ParseRow(row: Row, categories: map<nat, Catalog.Entry>, brands: map<nat, Catalog.Entry>)
    : (r: Result<Product, RowError>)
    requires Catalog.UniqueNames(categories) && Catalog.UniqueNames(brands)
    ensures r.Ok? <==> RowAccepted(row, categories, brands)
    ensures !Present(CellString(GetCell(row, 0))) ==> r == Err(NameRequired)
    ensures
      var name := CellString(GetCell(row, 0));
      var price := CellDecimal(GetCell(row, 2));
      var stock := CellInteger(GetCell(row, 4));
      var categoryName := CellString(GetCell(row, 5));
      var brandName := CellString(GetCell(row, 6));
      var priceOk := price.Some? && IsPositive(price.value);
      var stockOk := stock.Some? && stock.value >= 0;
      && (Present(name) && !priceOk ==> r == Err(PriceRequired))
      && (Present(name) && priceOk && !stockOk ==> r == Err(StockRequired))
      && (Present(name) && priceOk && stockOk && !Present(categoryName) ==> r == Err(CategoryRequired))
      && (Present(name) && priceOk && stockOk && Present(categoryName) && !Present(brandName) ==>
            r == Err(BrandRequired))
      && ((Present(name) && priceOk && stockOk && Present(categoryName) && Present(brandName) &&
           !Catalog.NameUsed(categories, categoryName.value)) ==> r == Err(CategoryNotFound(categoryName.value)))
      && ((Present(name) && priceOk && stockOk && Present(categoryName) && Present(brandName) &&
           Catalog.NameUsed(categories, categoryName.value) && !Catalog.NameUsed(brands, brandName.value)) ==>
            r == Err(BrandNotFound(brandName.value)))
    ensures r.Ok? ==>
      var discountPrice := CellDecimal(GetCell(row, 3));
      && r.value.description == CellString(GetCell(row, 1))
      && r.value.discountPrice == (if discountPrice.Some? then Some(ToCents(discountPrice.value)) else None)
      && r.value.imageUrl == CellString(GetCell(row, 7))
      && r.value.size == CellString(GetCell(row, 8))
      && r.value.weight == CellString(GetCell(row, 9))
      && r.value.ingredients == CellString(GetCell(row, 10))
    ensures r.Ok? ==>
      && r.value.name == CellString(GetCell(row, 0)).value
      && r.value.price == ToCents(CellDecimal(GetCell(row, 2)).value)
      && r.value.stockQuantity == CellInteger(GetCell(row, 4)).value >= 0
      && r.value.categoryId.Some? && r.value.categoryId.value in categories
      && categories[r.value.categoryId.value].name == CellString(GetCell(row, 5)).value
      && r.value.brandId.Some? && r.value.brandId.value in brands
      && brands[r.value.brandId.value].name == CellString(GetCell(row, 6)).value
      && r.value.isActive && r.value.isFeatured == CellBoolean(GetCell(row, 11))
      && r.value.viewCount == 0 && r.value.soldCount == 0
  {
    var name := CellString(GetCell(row, 0));
    var description := CellString(GetCell(row, 1));
    var price := CellDecimal(GetCell(row, 2));
    var discountPrice := CellDecimal(GetCell(row, 3));
    var stock := CellInteger(GetCell(row, 4));
    var categoryName := CellString(GetCell(row, 5));
    var brandName := CellString(GetCell(row, 6));
    var imageUrl := CellString(GetCell(row, 7));
    var size := CellString(GetCell(row, 8));
    var weight := CellString(GetCell(row, 9));
    var ingredients := CellString(GetCell(row, 10));
    var isFeatured := CellBoolean(GetCell(row, 11));
    if !Present(name) then Err(NameRequired)
    else if price.None? || !IsPositive(price.value) then Err(PriceRequired)
    else if stock.None? || stock.value < 0 then Err(StockRequired)
    else if !Present(categoryName) then Err(CategoryRequired)
    else if !Present(brandName) then Err(BrandRequired)
    else
      match Catalog.FindByName(categories, categoryName.value)
      case None => Err(CategoryNotFound(categoryName.value))
      case Some(categoryId) =>
        match Catalog.FindByName(brands, brandName.value)
        case None => Err(BrandNotFound(brandName.value))
        case Some(brandId) =>
          Ok(Product(name.value, description, ToCents(price.value),
                     if discountPrice.Some? then Some(ToCents(discountPrice.value)) else None,
                     stock.value, imageUrl, Some(categoryId), Some(brandId), size, weight, ingredients,
                     true, isFeatured, 0, 0))
  }

  /** An imported product is never priced below zero, and one whose price has
      at most two decimals is priced above zero. */
  lemma ImportedPrice(row: Row, categories: map<nat, Catalog.Entry>, brands: map<nat, Catalog.Entry>)
    requires Catalog.UniqueNames(categories) && Catalog.UniqueNames(brands)
    requires ParseRow(row, categories, brands).Ok?
    ensures ParseRow(row, categories, brands).value.price >= 0
    ensures CellDecimal(GetCell(row, 2)).value.exponent >= -2 ==> ParseRow(row, categories, brands).value.price > 0
  {
    ToCentsPositive(CellDecimal(GetCell(row, 2)).value);
  }

  /** The result map of uploadProducts: the number of data rows, and one
      entry per row, "Row <n>: <name> - SUCCESS" or "Row <n>: Error parsing
      row: <message>", with rows numbered from 1 after the header. */
  datatype UploadReport = UploadReport(totalRows: nat, errors: seq<(nat, RowError)>, success: seq<(nat, string)>)

  /** What parsing makes of each data row, in order. */
  function Outcomes(data: seq<Row>, categories: map<nat, Catalog.Entry>, brands: map<nat, Catalog.Entry>)
    : (r: seq<Result<Product, RowError>>)
    requires Catalog.UniqueNames(categories) && Catalog.UniqueNames(brands)
    ensures |r| == |data|
    decreases |data|
  {
    if data == [] then []
    else Outcomes(data[..|data| - 1], categories, brands) + [ParseRow(data[|data| - 1], categories, brands)]
  }

  /** Outcome `k` is the parse of row `k`. */
  lemma {:induction false} OutcomeAt(data: seq<Row>, categories: map<nat, Catalog.Entry>,
                                     brands: map<nat, Catalog.Entry>, k: nat)
    requires Catalog.UniqueNames(categories) && Catalog.UniqueNames(brands)
    requires k < |data|
    ensures Outcomes(data, categories, brands)[k] == ParseRow(data[k], categories, brands)
    decreases |data|
  {
    if k < |data| - 1 {
      OutcomeAt(data[..|data| - 1], categories, brands, k);
      assert data[..|data| - 1][k] == data[k];
    }
  }

  /** The report for rows with outcomes `outcomes`. */
  function Report(outcomes: seq<Result<Product, RowError>>): (r: UploadReport)
    ensures r.totalRows == |outcomes|
    ensures |r.success| + |r.errors| == r.totalRows
    ensures forall k :: 0 <= k < |r.success| ==> 1 <= r.success[k].0 <= |outcomes|
    ensures forall k :: 0 <= k < |r.errors| ==> 1 <= r.errors[k].0 <= |outcomes|
    decreases |outcomes|
  {
    if outcomes == [] then UploadReport(0, [], [])
    else Record(Report(outcomes[..|outcomes| - 1]), |outcomes|, outcomes[|outcomes| - 1])
  }

  /** The report after row `n` with outcome `outcome`. */
  function Record(before: UploadReport, n: nat, outcome: Result<Product, RowError>): (r: UploadReport)
    ensures r.totalRows == n
    ensures |r.success| + |r.errors| == |before.success| + |before.errors| + 1
  {
    match outcome
    case Ok(p) => UploadReport(n, before.errors, before.success + [(n, p.name)])
    case Err(e) => UploadReport(n, before.errors + [(n, e)], before.success)
  }

  /** The products the rows save, in row order. */
  function Saved(outcomes: seq<Result<Product, RowError>>): (r: seq<Product>)
    ensures |r| == |Report(outcomes).success|
    decreases |outcomes|
  {
    if outcomes == [] then []
    else Save(Saved(outcomes[..|outcomes| - 1]), outcomes[|outcomes| - 1])
  }

  function Save(before: seq<Product>, outcome: Result<Product, RowError>): seq<Product> {
    if outcome.Ok? then before + [outcome.value] else before
  }

  /** Every row is accounted for, whatever the rows around it: row k is in
      the success list with its product's name when it parses, and in the
      error list with its error when it does not. */
  lemma {:induction false} EveryRowReported(outcomes: seq<Result<Product, RowError>>, k: nat)
    requires k < |outcomes|
    ensures outcomes[k].Ok? ==> (k + 1, outcomes[k].value.name) in Report(outcomes).success
    ensures outcomes[k].Err? ==> (k + 1, outcomes[k].error) in Report(outcomes).errors
    decreases |outcomes|
  {
    var n := |outcomes|;
    if k < n - 1 {
      EveryRowReported(outcomes[..n - 1], k);
      assert outcomes[..n - 1][k] == outcomes[k];
    }
  }

  /** `ps` stored under consecutive ids from `start` on. */
  function Appended(rows: map<nat, Product>, start: nat, ps: seq<Product>): (r: map<nat, Product>)
    ensures forall id :: id in r <==> id in rows || start <= id < start + |ps|
    ensures forall k :: 0 <= k < |ps| ==> r[start + k] == ps[k]
    ensures forall id :: id in rows && !(start <= id < start + |ps|) ==> r[id] == rows[id]
    decreases |ps|
  {
    if ps == [] then rows
    else Appended(rows, start, ps[..|ps| - 1])[start + |ps| - 1 := ps[|ps| - 1]]
  }

  /** One more row: the report records its outcome and a parsed product is
      stored under the next id. */
  lemma {:induction false} NextRow(outcomes: seq<Result<Product, RowError>>, i: nat)
    requires i < |outcomes|
    ensures Report(outcomes[..i + 1]) == Record(Report(outcomes[..i]), i + 1, outcomes[i])
    ensures Saved(outcomes[..i + 1]) == Save(Saved(outcomes[..i]), outcomes[i])
  {
    assert outcomes[..i + 1][..i] == outcomes[..i];
    assert outcomes[..i + 1][i] == outcomes[i];
  }

  lemma {:induction false} AppendedNext(rows: map<nat, Product>, start: nat, ps: seq<Product>, p: Product)
    ensures Appended(rows, start, ps + [p]) == Appended(rows, start, ps)[start + |ps| := p]
  {
    assert (ps + [p])[..|ps|] == ps;
  }

  /** Parsing data row `i`. */
  method ParseDataRow(data: seq<Row>, i: nat, categories: map<nat, Catalog.Entry>, brands: map<nat, Catalog.Entry>)
    returns (outcome: Result<Product, RowError>)
    requires Catalog.UniqueNames(categories) && Catalog.UniqueNames(brands)
    requires i < |data|
    ensures outcome == Outcomes(data, categories, brands)[i]
  {
    outcome := ParseRow(data[i], categories, brands);
    OutcomeAt(data, categories, brands, i);
  }

  /** uploadProducts over the rows of the first sheet: the header is
      skipped, each later row is parsed, saved when valid and reported. The
      categories and brands are only read. */
  method UploadProducts(products: Table<Product>, categories: map<nat, Catalog.Entry>,
                        brands: map<nat, Catalog.Entry>, sheet: seq<Row>)
    returns (report: UploadReport)
    requires products.Valid() && Catalog.UniqueNames(categories) && Catalog.UniqueNames(brands)
    modifies products
    ensures products.Valid()
    ensures report == Report(Outcomes(if sheet == [] then [] else sheet[1..], categories, brands))
    ensures products.nextId == old(products.nextId) + |report.success|
    ensures products.rows == Appended(old(products.rows), old(products.nextId),
                                      Saved(Outcomes(if sheet == [] then [] else sheet[1..], categories, brands)))
  {
    var data := if sheet == [] then [] else sheet[1..];
    ghost var outcomes := Outcomes(data, categories, brands);
    ghost var rows0, start := products.rows, products.nextId;
    ghost var saved: seq<Product> := [];
    report := UploadReport(0, [], []);
    var i := 0;
    while i < |data|
      invariant 0 <= i <= |data|
      invariant products.Valid()
      invariant report == Report(outcomes[..i])
      invariant saved == Saved(outcomes[..i])
      invariant products.nextId == start + |saved|
      invariant products.rows == Appended(rows0, start, saved)
    {
      var outcome := ParseDataRow(data, i, categories, brands);
      NextRow(outcomes, i);
      if outcome.Ok? {
        AppendedNext(rows0, start, saved, outcome.value);
        var _ := products.Insert(outcome.value);
      }
      saved := Save(saved, outcome);
      report := Record(report, i + 1, outcome);
      i := i + 1;
    }
    assert outcomes[..i] == outcomes;
  }
}
