/** ProductService: product lookups that count views, create and update
    from a request, soft delete, signed stock adjustment, the stock check,
    and the choice of query and paging behind the product search. */
module ProductService {
  import opened Wrappers
  import opened Text
  import opened Store
  import opened ProductEntity
  import Catalog

  /** ProductRequest; `name`, `price`, `stockQuantity`, `categoryId` and
      `brandId` are required by its validation annotations. */
  datatype ProductRequest = ProductRequest(
    name: string,
    description: Option<string>,
    price: Cents,
    discountPrice: Option<Cents>,
    stockQuantity: int,
    imageUrl: Option<string>,
    categoryId: nat,
    brandId: nat,
    size: Option<string>,
    weight: Option<string>,
    ingredients: Option<string>,
    isFeatured: Option<bool>)

  /** @NotBlank name and @Positive price. */
  predicate ValidProductRequest(req: ProductRequest) {
    !IsBlank(req.name) && req.price > 0
  }

  datatype ProductError =
    | ProductNotFoundWithId(id: nat)   // "Product not found with id: <id>"
    | ProductNotFound                  // "Product not found"
    | CategoryNotFound                 // "Category not found"
    | BrandNotFound                    // "Brand not found"

  /** Below this stock an update sends the low-stock alert. */
  const LowStockLevel: int := 10

  /** Every product's category and brand, when set, are stored rows.
      Categories and brands are only ever soft-deleted, so this holds for
      good once established. */
  ghost predicate RefsValid(products: map<nat, Product>, categories: map<nat, Catalog.Entry>,
                            brands: map<nat, Catalog.Entry>) {
    forall id :: id in products ==>
      && (products[id].categoryId.Some? ==> products[id].categoryId.value in categories)
      && (products[id].brandId.Some? ==> products[id].brandId.value in brands)
  }

  /** The setters both createProduct and updateProduct apply. */
  function Fill(p: Product, req: ProductRequest): Product {
    p.(name := req.name, description := req.description, price := req.price,
       discountPrice := req.discountPrice, stockQuantity := req.stockQuantity,
       imageUrl := req.imageUrl, categoryId := Some(req.categoryId), brandId := Some(req.brandId),
       size := req.size, weight := req.weight, ingredients := req.ingredients)
  }

  /** The product createProduct stores. */
  function Created(req: ProductRequest): Product {
    Fill(NewProduct(req.name, req.price), req).(isFeatured := req.isFeatured.GetOr(false))
  }

  /** A created product carries every request field, is active, has no
      views and no sales, and is featured only when the request says so. */
  lemma CreatedProduct(req: ProductRequest)
    ensures var p := Created(req);
      && p.name == req.name && p.description == req.description && p.price == req.price
      && p.discountPrice == req.discountPrice && p.stockQuantity == req.stockQuantity
      && p.imageUrl == req.imageUrl && p.categoryId == Some(req.categoryId) && p.brandId == Some(req.brandId)
      && p.size == req.size && p.weight == req.weight && p.ingredients == req.ingredients
      && p.isActive && p.viewCount == 0 && p.soldCount == 0
      && (p.isFeatured <==> req.isFeatured == Some(true))
  {
  }

  /** An updated product carries every request field, keeps its flags and
      counters, and keeps its featured flag unless the request sets one. */
  lemma UpdatedProduct(p: Product, req: ProductRequest)
    ensures var q := Fill(p, req).(isFeatured := req.isFeatured.GetOr(p.isFeatured));
      && q.name == req.name && q.price == req.price && q.stockQuantity == req.stockQuantity
      && q.categoryId == Some(req.categoryId) && q.brandId == Some(req.brandId)
      && q.isActive == p.isActive && q.viewCount == p.viewCount && q.soldCount == p.soldCount
      && (req.isFeatured.None? ==> q.isFeatured == p.isFeatured)
      && (req.isFeatured.Some? ==> q.isFeatured == req.isFeatured.value)
  {
  }

  /** getProductById: every successful read counts one more view. */
  method GetProductById(products: Table<Product>, id: nat) returns (r: Result<Product, ProductError>)
    requires products.Valid()
    modifies products
    ensures products.Valid() && products.nextId == old(products.nextId)
    ensures r.Ok? <==> id in old(products.rows)
    ensures r.Err? ==> r.error == ProductNotFoundWithId(id) && products.rows == old(products.rows)
    ensures r.Ok? ==>
      && r.value == old(products.rows)[id].(viewCount := old(products.rows)[id].viewCount + 1)
      && products.rows == old(products.rows)[id := r.value]
  {
    if id !in products.rows {
      return Err(ProductNotFoundWithId(id));
    }
    var product := products.rows[id];
    product := product.(viewCount := product.viewCount + 1);
    products.rows := products.rows[id := product];
    r := Ok(product);
  }

  /** createProduct: the category must exist, then the brand. */
  method CreateProduct(products: Table<Product>, categories: Table<Catalog.Entry>, brands: Table<Catalog.Entry>,
                       req: ProductRequest)
    returns (r: Result<(nat, Product), ProductError>)
    requires ValidProductRequest(req)
    requires products.Valid() && RefsValid(products.rows, categories.rows, brands.rows)
    modifies products
    ensures products.Valid() && RefsValid(products.rows, categories.rows, brands.rows)
    ensures req.categoryId !in categories.rows ==> r == Err(CategoryNotFound)
    ensures req.categoryId in categories.rows && req.brandId !in brands.rows ==> r == Err(BrandNotFound)
    ensures r.Ok? <==> req.categoryId in categories.rows && req.brandId in brands.rows
    ensures r.Err? ==> products.rows == old(products.rows) && products.nextId == old(products.nextId)
    ensures r.Ok? ==>
      && r.value == (old(products.nextId), Created(req))
      && products.rows == old(products.rows)[r.value.0 := r.value.1]
  {
    if req.categoryId !in categories.rows {
      return Err(CategoryNotFound);
    }
    if req.brandId !in brands.rows {
      return Err(BrandNotFound);
    }
    var product := NewProduct(req.name, req.price);
    product := Fill(product, req);
    product := product.(isFeatured := if req.isFeatured.Some? then req.isFeatured.value else false);
    var id := products.Insert(product);
    r := Ok((id, product));
  }

  /** updateProduct: the product, its category and its brand must exist.
      `lowStockAlert` is the alert mail, sent exactly when the new stock is
      below the low-stock level. */
  method UpdateProduct(products: Table<Product>, categories: Table<Catalog.Entry>, brands: Table<Catalog.Entry>,
                       id: nat, req: ProductRequest)
    returns (r: Result<Product, ProductError>, lowStockAlert: bool)
    requires ValidProductRequest(req)
    requires products.Valid() && RefsValid(products.rows, categories.rows, brands.rows)
    modifies products
    ensures products.Valid() && products.nextId == old(products.nextId)
    ensures RefsValid(products.rows, categories.rows, brands.rows)
    ensures id !in old(products.rows) ==> r == Err(ProductNotFoundWithId(id))
    ensures id in old(products.rows) && req.categoryId !in categories.rows ==> r == Err(CategoryNotFound)
    ensures id in old(products.rows) && req.categoryId in categories.rows && req.brandId !in brands.rows ==>
      r == Err(BrandNotFound)
    ensures r.Ok? <==> id in old(products.rows) && req.categoryId in categories.rows && req.brandId in brands.rows
    ensures r.Err? ==> products.rows == old(products.rows)
    ensures r.Ok? ==>
      && r.value == Fill(old(products.rows)[id], req).(isFeatured := req.isFeatured.GetOr(old(products.rows)[id].isFeatured))
      && products.rows == old(products.rows)[id := r.value]
    ensures lowStockAlert <==> r.Ok? && req.stockQuantity < LowStockLevel
  {
    lowStockAlert := false;
    if id !in products.rows {
      return Err(ProductNotFoundWithId(id)), lowStockAlert;
    }
    var product := products.rows[id];
    if req.categoryId !in categories.rows {
      return Err(CategoryNotFound), lowStockAlert;
    }
    if req.brandId !in brands.rows {
      return Err(BrandNotFound), lowStockAlert;
    }
    product := Fill(product, req);
    if req.isFeatured.Some? {
      product := product.(isFeatured := req.isFeatured.value);
    }
    products.rows := products.rows[id := product];
    if product.stockQuantity < LowStockLevel {
      lowStockAlert := true;
    }
    r := Ok(product);
  }

  /** deleteProduct: a soft delete; the row stays, so orders that name the
      product keep their link. */
  method DeleteProduct(products: Table<Product>, id: nat) returns (r: Result<(), ProductError>)
    requires products.Valid()
    modifies products
    ensures products.Valid() && products.nextId == old(products.nextId)
    ensures products.rows.Keys == old(products.rows).Keys
    ensures r.Ok? <==> id in old(products.rows)
    ensures r.Err? ==> r.error == ProductNotFoundWithId(id) && products.rows == old(products.rows)
    ensures r.Ok? ==> products.rows == old(products.rows)[id := old(products.rows)[id].(isActive := false)]
  {
    if id !in products.rows {
      return Err(ProductNotFoundWithId(id));
    }
    var product := products.rows[id];
    products.rows := products.rows[id := product.(isActive := false)];
    r := Ok(());
  }

  /** updateStock: adds the signed quantity, with no lower bound; the sold
      count is left alone. */
  method UpdateStock(products: Table<Product>, id: nat, quantity: int) returns (r: Result<(), ProductError>)
    requires products.Valid()
    modifies products
    ensures products.Valid() && products.nextId == old(products.nextId)
    ensures r.Ok? <==> id in old(products.rows)
    ensures r.Err? ==> r.error == ProductNotFound && products.rows == old(products.rows)
    ensures r.Ok? ==>
      products.rows == old(products.rows)[id := old(products.rows)[id].(stockQuantity := old(products.rows)[id].stockQuantity + quantity)]
  {
    if id !in products.rows {
      return Err(ProductNotFound);
    }
    var product := products.rows[id];
    products.rows := products.rows[id := product.(stockQuantity := product.stockQuantity + quantity)];
    r := Ok(());
  }

  /** isInStock(productId, requiredQuantity) */
  function IsInStockFor(products: map<nat, Product>, id: nat, required: int): (r: Result<bool, ProductError>)
    ensures r.Err? <==> id !in products
    ensures r.Err? ==> r.error == ProductNotFound
    ensures r.Ok? ==> (r.value <==> products[id].stockQuantity >= required)
  {
    if id !in products then Err(ProductNotFound) else Ok(products[id].stockQuantity >= required)
  }

  /** Asking for one unit agrees with the entity's own isInStock. */
  lemma IsInStockForOne(products: map<nat, Product>, id: nat)
    requires id in products
    ensures IsInStockFor(products, id, 1) == Ok(IsInStock(products[id]))
  {
  }

  // ---------------------------------------------------------------------
  // Search

  datatype SearchRequest = SearchRequest(
    keyword: Option<string>,
    categoryId: Option<nat>,
    brandId: Option<nat>,
    minPrice: Option<Cents>,
    maxPrice: Option<Cents>,
    sortBy: Option<string>,
    sortOrder: Option<string>,
    page: Option<int>,
    size: Option<int>)

  /** The repository query searchProducts runs. */
  datatype Query =
    | ByKeyword(keyword: string)
    | ByCategoryAndBrand(categoryId: nat, brandId: nat)
    | ByCategory(categoryId: nat)
    | ByBrand(brandId: nat)
    | ByPriceRange(minPrice: Cents, maxPrice: Cents)
    | AllActive

  predicate HasKeyword(req: SearchRequest) {
    req.keyword.Some? && !IsBlank(req.keyword.value)
  }

  /** The first filter present wins: keyword, category and brand, category,
      brand, price range (both bounds), else every active product. */
  function SelectQuery(req: SearchRequest): (q: Query)
    ensures q.ByKeyword? <==> HasKeyword(req)
    ensures q.ByKeyword? ==> q.keyword == req.keyword.value
    ensures q.ByCategoryAndBrand? <==> !HasKeyword(req) && req.categoryId.Some? && req.brandId.Some?
    ensures q.ByCategory? <==> !HasKeyword(req) && req.categoryId.Some? && req.brandId.None?
    ensures q.ByBrand? <==> !HasKeyword(req) && req.categoryId.None? && req.brandId.Some?
    ensures q.ByPriceRange? <==>
      !HasKeyword(req) && req.categoryId.None? && req.brandId.None? && req.minPrice.Some? && req.maxPrice.Some?
    ensures q.AllActive? <==>
      !HasKeyword(req) && req.categoryId.None? && req.brandId.None? && (req.minPrice.None? || req.maxPrice.None?)
    ensures (q.ByCategoryAndBrand? || q.ByCategory?) ==> q.categoryId == req.categoryId.value
    ensures (q.ByCategoryAndBrand? || q.ByBrand?) ==> q.brandId == req.brandId.value
    ensures q.ByPriceRange? ==> q.minPrice == req.minPrice.value && q.maxPrice == req.maxPrice.value
  {
    if HasKeyword(req) then ByKeyword(req.keyword.value)
    else if req.categoryId.Some? && req.brandId.Some? then ByCategoryAndBrand(req.categoryId.value, req.brandId.value)
    else if req.categoryId.Some? then ByCategory(req.categoryId.value)
    else if req.brandId.Some? then ByBrand(req.brandId.value)
    else if req.minPrice.Some? && req.maxPrice.Some? then ByPriceRange(req.minPrice.value, req.maxPrice.value)
    else AllActive
  }

  /** What each query selects: always active products only; the keyword
      (untrimmed) must occur in the name, both lower-cased. */
  predicate Matches(q: Query, p: Product): (r: bool)
    ensures r ==> p.isActive
    ensures q == AllActive ==> (r <==> p.isActive)
  {
    p.isActive &&
    match q
    case ByKeyword(k) => IsInfix(LowerCase(k), LowerCase(p.name))
    case ByCategoryAndBrand(c, b) => p.categoryId == Some(c) && p.brandId == Some(b)
    case ByCategory(c) => p.categoryId == Some(c)
    case ByBrand(b) => p.brandId == Some(b)
    case ByPriceRange(lo, hi) => lo <= p.price <= hi
    case AllActive => true
  }

  datatype Direction = Asc | Desc
  datatype Pageable = Pageable(page: int, size: int, direction: Direction, sortBy: string)

  datatype PageError =
    | SortPropertyEmpty   // "Property must not be null or empty"
    | PageIndexNegative   // "Page index must not be less than zero"
    | PageSizeTooSmall    // "Page size must not be less than one"

  /** createPageable: descending unless the order reads "asc" in any case;
      sortBy, page and size default to "createdAt", 0 and 12.  Building the
      Sort rejects a sort field without text, then PageRequest.of rejects a
      negative page and then a size below one. */
  function CreatePageable(req: SearchRequest): (r: Result<Pageable, PageError>)
    ensures r.Ok? <==> HasText(req.sortBy.GetOr("createdAt")) && req.page.GetOr(0) >= 0 && req.size.GetOr(12) >= 1
    ensures !HasText(req.sortBy.GetOr("createdAt")) ==> r == Err(SortPropertyEmpty)
    ensures HasText(req.sortBy.GetOr("createdAt")) && req.page.GetOr(0) < 0 ==> r == Err(PageIndexNegative)
    ensures r.Ok? ==>
      && (r.value.direction == Asc <==> EqualsIgnoreCase("asc", req.sortOrder))
      && r.value.sortBy == req.sortBy.GetOr("createdAt")
      && r.value.page == req.page.GetOr(0)
      && r.value.size == req.size.GetOr(12)
  {
    var direction := if EqualsIgnoreCase("asc", req.sortOrder) then Asc else Desc;
    var sortBy := if req.sortBy.Some? then req.sortBy.value else "createdAt";
    var page := if req.page.Some? then req.page.value else 0;
    var size := if req.size.Some? then req.size.value else 12;
    if !HasText(sortBy) then Err(SortPropertyEmpty)
    else if page < 0 then Err(PageIndexNegative)
    else if size < 1 then Err(PageSizeTooSmall)
    else Ok(Pageable(page, size, direction, sortBy))
  }

  /** A request that leaves everything to the defaults reads the first page
      of twelve, newest first. */
  lemma DefaultPageable()
    ensures CreatePageable(SearchRequest(None, None, None, None, None, None, None, None, None)) ==
            Ok(Pageable(0, 12, Desc, "createdAt"))
  {
    assert !IsJavaWhitespace("createdAt"[0]);
  }

  /** searchProducts: the ids the chosen query selects (paging and sorting
      decide only which of them are returned and in which order). */
  function SearchProducts(products: map<nat, Product>, req: SearchRequest): (r: Result<set<nat>, PageError>)
    ensures r.Err? <==> CreatePageable(req).Err?
    ensures r.Ok? ==> forall id :: id in r.value <==> id in products && Matches(SelectQuery(req), products[id])
  {
    match CreatePageable(req)
    case Err(e) => Err(e)
    case Ok(_) =>
      var q := SelectQuery(req);
      Ok(set id | id in products && Matches(q, products[id]))
  }

  /** A search never returns a soft-deleted product, and a keyword search
      returns exactly the active products whose name contains it. */
  lemma SearchOnlyActive(products: map<nat, Product>, req: SearchRequest, id: nat)
    requires SearchProducts(products, req).Ok? && id in SearchProducts(products, req).value
    ensures id in products && products[id].isActive
    ensures HasKeyword(req) ==> IsInfix(LowerCase(req.keyword.value), LowerCase(products[id].name))
  {
  }
}
