/** AnalyticsService, its integer part: sales grouped by category and by
    brand, the order status distribution, the dashboard counters and the
    best-seller list. Every figure here is a filter, a count or a sum over
    the lists the repositories return. */
module AnalyticsService {
  import opened Wrappers
  import opened ProductEntity
  import Catalog
  import OrderService

  // ---------------------------------------------------------------------
  // Grouping products by the name of their category or brand

  /** Which of a product's two references a grouping follows. */
  datatype Dimension = ByCategory | ByBrand

  function RefOf(p: Product, dim: Dimension): Option<nat> {
    match dim
    case ByCategory => p.categoryId
    case ByBrand => p.brandId
  }

  /** Every reference the grouping follows leads to a row of `names` (the
      foreign key the database enforces). */
  predicate Linked(ps: seq<Product>, dim: Dimension, names: map<nat, Catalog.Entry>) {
    forall i :: 0 <= i < |ps| && RefOf(ps[i], dim).Some? ==> RefOf(ps[i], dim).value in names
  }

  /** The group a product falls in: the name of its category (or brand),
      and none when it has no category (brand) or has not sold anything. */
  function Key(p: Product, dim: Dimension, names: map<nat, Catalog.Entry>): Option<string>
    requires RefOf(p, dim).Some? ==> RefOf(p, dim).value in names
  {
    if RefOf(p, dim).Some? && p.soldCount > 0 then Some(names[RefOf(p, dim).value].name) else None
  }

  /** Some listed product falls in group `k`. */
  predicate Listed(ps: seq<Product>, dim: Dimension, names: map<nat, Catalog.Entry>, k: string)
    requires Linked(ps, dim, names)
  {
    exists i :: 0 <= i < |ps| && Key(ps[i], dim, names) == Some(k)
  }

  /** Units sold by the products of group `k`. */
  function SoldFor(ps: seq<Product>, dim: Dimension, names: map<nat, Catalog.Entry>, k: string): int
    requires Linked(ps, dim, names)
    decreases |ps|
  {
    if ps == [] then 0
    else
      var p := ps[|ps| - 1];
      SoldFor(ps[..|ps| - 1], dim, names, k) + (if Key(p, dim, names) == Some(k) then p.soldCount else 0)
  }

  /** Number of products in group `k`. */
  function CountFor(ps: seq<Product>, dim: Dimension, names: map<nat, Catalog.Entry>, k: string): nat
    requires Linked(ps, dim, names)
    decreases |ps|
  {
    if ps == [] then 0
    else CountFor(ps[..|ps| - 1], dim, names, k) + (if Key(ps[|ps| - 1], dim, names) == Some(k) then 1 else 0)
  }

  /** A group's units sold and number of products. */
  datatype Tally = Tally(totalSold: int, productCount: nat)

  function Tallied(g: map<string, Tally>, k: string, sold: int): Tally {
    if k in g then Tally(g[k].totalSold + sold, g[k].productCount + 1) else Tally(sold, 1)
  }

  /** `groupingBy` over the filtered list, one product at a time. */
  function Group(ps: seq<Product>, dim: Dimension, names: map<nat, Catalog.Entry>): map<string, Tally>
    requires Linked(ps, dim, names)
    decreases |ps|
  {
    if ps == [] then map[]
    else
      var g := Group(ps[..|ps| - 1], dim, names);
      var p := ps[|ps| - 1];
      match Key(p, dim, names)
      case None => g
      case Some(k) => g[k := Tallied(g, k, p.soldCount)]
  }

  /** The grouping holds exactly the groups some product falls in, each with
      the sum and the number of its products. */
  lemma {:induction false} GroupSpec(ps: seq<Product>, dim: Dimension, names: map<nat, Catalog.Entry>, k: string)
    requires Linked(ps, dim, names)
    ensures k in Group(ps, dim, names) <==> Listed(ps, dim, names, k)
    ensures k in Group(ps, dim, names) ==>
      Group(ps, dim, names)[k] == Tally(SoldFor(ps, dim, names, k), CountFor(ps, dim, names, k))
    ensures k !in Group(ps, dim, names) ==> SoldFor(ps, dim, names, k) == 0 && CountFor(ps, dim, names, k) == 0
    decreases |ps|
  {
    if ps != [] {
      var init := ps[..|ps| - 1];
      var p := ps[|ps| - 1];
      assert Linked(init, dim, names) by {
        forall i | 0 <= i < |init| ensures init[i] == ps[i] { }
      }
      GroupSpec(init, dim, names, k);
      if Key(p, dim, names) == Some(k) {
        assert Key(ps[|ps| - 1], dim, names) == Some(k);
      } else {
        if Listed(init, dim, names, k) {
          var i :| 0 <= i < |init| && Key(init[i], dim, names) == Some(k);
          assert ps[i] == init[i];
        }
        if Listed(ps, dim, names, k) {
          var i :| 0 <= i < |ps| && Key(ps[i], dim, names) == Some(k);
          assert init[i] == ps[i];
        }
      }
    }
  }

  /** Every product in a group has sold at least one unit, so a group never
      counts more products than units sold. */
  lemma {:induction false} CountBoundedBySold(ps: seq<Product>, dim: Dimension, names: map<nat, Catalog.Entry>, k: string)
    requires Linked(ps, dim, names)
    ensures CountFor(ps, dim, names, k) <= SoldFor(ps, dim, names, k)
    decreases |ps|
  {
    if ps != [] {
      var init := ps[..|ps| - 1];
      assert Linked(init, dim, names) by {
        forall i | 0 <= i < |init| ensures init[i] == ps[i] { }
      }
      CountBoundedBySold(init, dim, names, k);
    }
  }

  lemma GroupSpecAll(ps: seq<Product>, dim: Dimension, names: map<nat, Catalog.Entry>)
    requires Linked(ps, dim, names)
    ensures forall k :: k in Group(ps, dim, names) <==> Listed(ps, dim, names, k)
    ensures forall k :: k in Group(ps, dim, names) ==>
      && Group(ps, dim, names)[k] == Tally(SoldFor(ps, dim, names, k), CountFor(ps, dim, names, k))
      && 1 <= CountFor(ps, dim, names, k) <= SoldFor(ps, dim, names, k)
  {
    forall k
      ensures k in Group(ps, dim, names) <==> Listed(ps, dim, names, k)
      ensures k in Group(ps, dim, names) ==>
        && Group(ps, dim, names)[k] == Tally(SoldFor(ps, dim, names, k), CountFor(ps, dim, names, k))
        && 1 <= CountFor(ps, dim, names, k) <= SoldFor(ps, dim, names, k)
    {
      GroupSpec(ps, dim, names, k);
      CountBoundedBySold(ps, dim, names, k);
    }
  }

  /** getCategoryDistribution: for every category one of whose products has
      sold, the units sold across its products. */
  function CategoryDistribution(products: seq<Product>, categories: map<nat, Catalog.Entry>): (r: map<string, int>)
    requires Linked(products, ByCategory, categories)
    ensures forall k :: k in r <==> Listed(products, ByCategory, categories, k)
    ensures forall k :: k in r ==> r[k] == SoldFor(products, ByCategory, categories, k) && r[k] > 0
  {
    GroupSpecAll(products, ByCategory, categories);
    var g := Group(products, ByCategory, categories);
    map k | k in g :: g[k].totalSold
  }

  /** getBrandPerformance without the revenue: for every brand one of whose
      products has sold, the units sold and how many of its products sold. */
  function BrandPerformance(products: seq<Product>, brands: map<nat, Catalog.Entry>): (r: map<string, Tally>)
    requires Linked(products, ByBrand, brands)
    ensures forall k :: k in r <==> Listed(products, ByBrand, brands, k)
    ensures forall k :: k in r ==>
      && r[k] == Tally(SoldFor(products, ByBrand, brands, k), CountFor(products, ByBrand, brands, k))
      && 1 <= r[k].productCount <= r[k].totalSold
  {
    GroupSpecAll(products, ByBrand, brands);
    Group(products, ByBrand, brands)
  }

  // ---------------------------------------------------------------------
  // Orders by status

  function Occurs(r: map<OrderService.OrderStatus, nat>, s: OrderService.OrderStatus): nat {
    if s in r then r[s] else 0
  }

  /** getOrderStatusDistribution: one entry for each status some order has,
      holding the number of orders with it. */
  function StatusDistribution(orders: map<nat, OrderService.Order>): (r: map<OrderService.OrderStatus, nat>)
    ensures forall s :: s in r <==> exists id :: id in orders && orders[id].status == s
    ensures forall s :: s in r ==> r[s] == OrderService.CountWithStatus(orders, s)
  {
    map s | s in (set id | id in orders :: orders[id].status) :: OrderService.CountWithStatus(orders, s)
  }

  /** The distribution's counts add up to the number of orders. */
  lemma StatusDistributionTotal(orders: map<nat, OrderService.Order>)
    ensures var r := StatusDistribution(orders);
      Occurs(r, OrderService.Pending) + Occurs(r, OrderService.Confirmed) + Occurs(r, OrderService.Shipped) +
      Occurs(r, OrderService.Delivered) + Occurs(r, OrderService.Cancelled) == |orders|
  {
    var r := StatusDistribution(orders);
    forall s ensures Occurs(r, s) == OrderService.CountWithStatus(orders, s) {
      if s !in r {
        assert OrderService.IdsWithStatus(orders, s) == {};
      }
    }
    OrderService.StatusCountsPartition(orders);
  }

  // ---------------------------------------------------------------------
  // Dashboard counters

  datatype Dashboard = Dashboard(totalOrders: nat, pendingOrders: nat, deliveredOrders: nat,
                                 totalProducts: nat, lowStockProducts: nat, outOfStockProducts: nat)

  const LowStockThreshold := 10

  function LowStockIds(products: map<nat, Product>): (r: set<nat>)
    ensures forall id :: id in r <==> id in products && products[id].stockQuantity < LowStockThreshold
  {
    set id | id in products && products[id].stockQuantity < LowStockThreshold
  }

  function OutOfStockIds(products: map<nat, Product>): (r: set<nat>)
    ensures forall id :: id in r <==> id in products && products[id].stockQuantity == 0
  {
    set id | id in products && products[id].stockQuantity == 0
  }

  /** getDashboardStats without the revenue. An out-of-stock product is also
      a low-stock one, and no order is both pending and delivered. */
  function DashboardStats(orders: map<nat, OrderService.Order>, products: map<nat, Product>): (r: Dashboard)
    ensures r.totalOrders == |orders| && r.totalProducts == |products|
    ensures r.pendingOrders == OrderService.CountWithStatus(orders, OrderService.Pending)
    ensures r.deliveredOrders == OrderService.CountWithStatus(orders, OrderService.Delivered)
    ensures r.pendingOrders + r.deliveredOrders <= r.totalOrders
    ensures r.lowStockProducts == |LowStockIds(products)|
    ensures r.outOfStockProducts == |OutOfStockIds(products)|
    ensures r.outOfStockProducts <= r.lowStockProducts <= r.totalProducts
  {
    var pending := OrderService.IdsWithStatus(orders, OrderService.Pending);
    var delivered := OrderService.IdsWithStatus(orders, OrderService.Delivered);
    SubsetSize(pending + delivered, orders.Keys);
    assert pending * delivered == {};
    SubsetSize(OutOfStockIds(products), LowStockIds(products));
    SubsetSize(LowStockIds(products), products.Keys);
    Dashboard(|orders|, |pending|, |delivered|, |products|, |LowStockIds(products)|, |OutOfStockIds(products)|)
  }

  lemma {:induction false} SubsetSize<T>(a: set<T>, b: set<T>)
    requires a <= b
    ensures |a| <= |b|
  {
    assert b == a + (b - a);
  }

  // ---------------------------------------------------------------------
  // Best sellers

  /** What `findTop10ByIsActiveTrueOrderBySoldCountDesc` returns: at most
      ten distinct active products, the best-selling first. */
  predicate TopTenOrder(products: map<nat, Product>, ranked: seq<nat>) {
    && |ranked| <= 10
    && (forall i :: 0 <= i < |ranked| ==> ranked[i] in products && products[ranked[i]].isActive)
    && (forall i, j :: 0 <= i < j < |ranked| ==>
          ranked[i] != ranked[j] && products[ranked[i]].soldCount >= products[ranked[j]].soldCount)
  }

  /** Every listed product's category and brand exist. */
  predicate RefsExist(products: map<nat, Product>, ranked: seq<nat>,
                      categories: map<nat, Catalog.Entry>, brands: map<nat, Catalog.Entry>)
    requires forall i :: 0 <= i < |ranked| ==> ranked[i] in products
  {
    forall i :: 0 <= i < |ranked| ==>
      && (products[ranked[i]].categoryId.Some? ==> products[ranked[i]].categoryId.value in categories)
      && (products[ranked[i]].brandId.Some? ==> products[ranked[i]].brandId.value in brands)
  }

  const Unknown := "Unknown"

  datatype AnalyticsError =
    | NegativeLimit   // Stream.limit refuses a negative size
    | NullBrand       // the brand label dereferences a missing brand

  /** One entry of the best-seller list (the revenue figure is not modelled). */
  datatype TopProduct = TopProduct(id: nat, name: string, soldCount: int, category: string, brand: string)

  function CategoryLabel(p: Product, categories: map<nat, Catalog.Entry>): (r: string)
    requires p.categoryId.Some? ==> p.categoryId.value in categories
    ensures p.categoryId.Some? ==> r == categories[p.categoryId.value].name
    ensures p.categoryId.None? ==> r == Unknown
  {
    if p.categoryId.Some? then categories[p.categoryId.value].name else Unknown
  }

  /** The brand label as the code computes it: it tests the category, not
      the brand, before reading the brand's name. None stands for the
      NullPointerException thrown when a product has a category but no
      brand. */
  function BrandLabelAsWritten(p: Product, brands: map<nat, Catalog.Entry>): (r: Option<string>)
    requires p.brandId.Some? ==> p.brandId.value in brands
    ensures r.None? <==> p.categoryId.Some? && p.brandId.None?
  {
    if p.categoryId.Some? then
      if p.brandId.Some? then Some(brands[p.brandId.value].name) else None
    else Some(Unknown)
  }

  /** The brand label as intended: the brand's name, or "Unknown" without
      one. */
  function BrandLabel(p: Product, brands: map<nat, Catalog.Entry>): (r: string)
    requires p.brandId.Some? ==> p.brandId.value in brands
    ensures p.brandId.Some? ==> r == brands[p.brandId.value].name
    ensures p.brandId.None? ==> r == Unknown
  {
    if p.brandId.Some? then brands[p.brandId.value].name else Unknown
  }

  function Entry(products: map<nat, Product>, id: nat, categories: map<nat, Catalog.Entry>,
                 brands: map<nat, Catalog.Entry>): TopProduct
    requires id in products
    requires products[id].categoryId.Some? ==> products[id].categoryId.value in categories
    requires products[id].brandId.Some? ==> products[id].brandId.value in brands
  {
    var p := products[id];
    TopProduct(id, p.name, p.soldCount, CategoryLabel(p, categories), BrandLabel(p, brands))
  }

  /** getTopProducts with the brand label corrected: the first `limit` of
      the repository's ten best sellers, in the same order. */
  function TopProducts(products: map<nat, Product>, categories: map<nat, Catalog.Entry>,
                       brands: map<nat, Catalog.Entry>, ranked: seq<nat>, limit: int)
    : (r: Result<seq<TopProduct>, AnalyticsError>)
    requires TopTenOrder(products, ranked) && RefsExist(products, ranked, categories, brands)
    ensures r.Err? <==> limit < 0
    ensures r.Ok? ==> |r.value| == Min(limit, |ranked|) && |r.value| <= limit && |r.value| <= 10
    ensures r.Ok? ==> forall i :: 0 <= i < |r.value| ==>
      && r.value[i].id == ranked[i]
      && r.value[i].name == products[ranked[i]].name
      && r.value[i].soldCount == products[ranked[i]].soldCount
      && r.value[i].category == CategoryLabel(products[ranked[i]], categories)
      && r.value[i].brand == BrandLabel(products[ranked[i]], brands)
    ensures r.Ok? ==> forall i, j :: 0 <= i < j < |r.value| ==> r.value[i].soldCount >= r.value[j].soldCount
  {
    if limit < 0 then Err(NegativeLimit)
    else
      var n := Min(limit, |ranked|);
      Ok(seq(n, i requires 0 <= i < n => Entry(products, ranked[i], categories, brands)))
  }

  /** getTopProducts as written: the whole call fails as soon as one listed
      product has a category and no brand. */
  function TopProductsAsWritten(products: map<nat, Product>, categories: map<nat, Catalog.Entry>,
                                brands: map<nat, Catalog.Entry>, ranked: seq<nat>, limit: int)
    : (r: Result<seq<TopProduct>, AnalyticsError>)
    requires TopTenOrder(products, ranked) && RefsExist(products, ranked, categories, brands)
    ensures r == Err(NullBrand) <==>
      (limit >= 0 && exists i :: 0 <= i < Min(limit, |ranked|) && BrandLabelAsWritten(products[ranked[i]], brands).None?)
  {
    if limit < 0 then Err(NegativeLimit)
    else
      var n := Min(limit, |ranked|);
      if exists i :: 0 <= i < n && BrandLabelAsWritten(products[ranked[i]], brands).None? then Err(NullBrand)
      else
        Ok(seq(n, i requires 0 <= i < n =>
          var p := products[ranked[i]];
          TopProduct(ranked[i], p.name, p.soldCount, CategoryLabel(p, categories),
                     BrandLabelAsWritten(p, brands).value)))
  }

  /** Where every listed product has both a category and a brand, or
      neither, the code as written and the corrected one agree. */
  lemma TopProductsAgreeWhenConsistent(products: map<nat, Product>, categories: map<nat, Catalog.Entry>,
                                       brands: map<nat, Catalog.Entry>, ranked: seq<nat>, limit: int)
    requires TopTenOrder(products, ranked) && RefsExist(products, ranked, categories, brands)
    requires forall i :: 0 <= i < |ranked| ==>
      products[ranked[i]].categoryId.Some? == products[ranked[i]].brandId.Some?
    ensures TopProductsAsWritten(products, categories, brands, ranked, limit) ==
            TopProducts(products, categories, brands, ranked, limit)
  {
    if limit >= 0 {
      var n := Min(limit, |ranked|);
      var a := TopProductsAsWritten(products, categories, brands, ranked, limit);
      var b := TopProducts(products, categories, brands, ranked, limit);
      assert a.Ok?;
      assert |a.value| == |b.value| == n;
      forall i | 0 <= i < n ensures a.value[i] == b.value[i] { }
      assert a.value == b.value;
    }
  }

  /** A serum filed under a category but sold under no brand: the code as
      written fails the whole best-seller list, the corrected one shows it
      with brand "Unknown". */
  lemma BrandLabelCounterexample()
    ensures var serum := NewProduct("Serum", 1000).(categoryId := Some(0));
            var products := map[0 := serum];
            var categories := map[0 := Catalog.Entry("Skincare", None, None, true)];
            var brands: map<nat, Catalog.Entry> := map[];
            && TopTenOrder(products, [0]) && RefsExist(products, [0], categories, brands)
            && TopProductsAsWritten(products, categories, brands, [0], 1) == Err(NullBrand)
            && TopProducts(products, categories, brands, [0], 1).Ok?
            && TopProducts(products, categories, brands, [0], 1).value[0].brand == Unknown
    ensures var lipstick := NewProduct("Lipstick", 500).(brandId := Some(0));
            var brands := map[0 := Catalog.Entry("Rouge", None, None, true)];
            && BrandLabelAsWritten(lipstick, brands) == Some(Unknown)
            && BrandLabel(lipstick, brands) == "Rouge"
  {
    var serum := NewProduct("Serum", 1000).(categoryId := Some(0));
    var products := map[0 := serum];
    var categories := map[0 := Catalog.Entry("Skincare", None, None, true)];
    var brands: map<nat, Catalog.Entry> := map[];
    assert BrandLabelAsWritten(products[[0][0]], brands).None?;
    assert Min(1, |[0]|) == 1;
  }
}
