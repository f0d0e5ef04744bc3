/** The Product entity: its fields, the defaults of a new instance, and the
    three pricing and stock helpers the services call. */
module ProductEntity {
  import opened Wrappers

  /** A BigDecimal price column of scale 2, counted in cents. */
  type Cents = int

  datatype Product = Product(
    name: string,
    description: Option<string>,
    price: Cents,
    discountPrice: Option<Cents>,
    stockQuantity: int,
    imageUrl: Option<string>,
    categoryId: Option<nat>,
    brandId: Option<nat>,
    size: Option<string>,
    weight: Option<string>,
    ingredients: Option<string>,
    isActive: bool,
    isFeatured: bool,
    viewCount: int,
    soldCount: int)

  /** `new Product()` with its name and price set: every other field keeps
      the entity's initialiser or stays null. */
  function NewProduct(name: string, price: Cents): (p: Product)
    ensures p.name == name && p.price == price && p.discountPrice == None
    ensures p.stockQuantity == 0 && p.isActive && !p.isFeatured
    ensures p.viewCount == 0 && p.soldCount == 0
    ensures p.categoryId == None && p.brandId == None
  {
    Product(name, None, price, None, 0, None, None, None, None, None, None,
            true, false, 0, 0)
  }

  /** A discount counts only when it is strictly below the list price: a
      missing one, or one equal to or above the price, does not. */
  predicate HasDiscount(p: Product): (r: bool)
    ensures r ==> p.discountPrice.Some? && p.discountPrice.value < p.price
    ensures p.discountPrice.None? || p.discountPrice.value >= p.price ==> !r
  {
    p.discountPrice.Some? && p.discountPrice.value < p.price
  }

  function Min(a: int, b: int): int { if a <= b then a else b }

  /** The price a customer pays: the lower of list price and discount price,
      and the list price when there is no discount price. */
  function EffectivePrice(p: Product): (r: Cents)
    ensures r <= p.price
    ensures p.discountPrice.None? ==> r == p.price
    ensures p.discountPrice.Some? ==> r == Min(p.price, p.discountPrice.value)
    ensures r < p.price <==> HasDiscount(p)
  {
    if HasDiscount(p) then p.discountPrice.value else p.price
  }

  /** In stock while at least one unit is left. */
  predicate IsInStock(p: Product): (r: bool)
    ensures r <==> p.stockQuantity >= 1
  {
    p.stockQuantity > 0
  }

  /** Moving `delta` units from sold back to stock (negative `delta`: a sale).
      Nothing but the two counters changes, so prices stay as they were. */
  function Adjust(p: Product, delta: int): (r: Product)
    ensures r.stockQuantity + r.soldCount == p.stockQuantity + p.soldCount
    ensures r.stockQuantity == p.stockQuantity + delta
    ensures r.(stockQuantity := p.stockQuantity, soldCount := p.soldCount) == p
    ensures EffectivePrice(r) == EffectivePrice(p)
  {
    p.(stockQuantity := p.stockQuantity + delta, soldCount := p.soldCount - delta)
  }

  /** A sale followed by its return leaves the product as it was. */
  lemma AdjustCompose(p: Product, a: int, b: int)
    ensures Adjust(Adjust(p, a), b) == Adjust(p, a + b)
    ensures Adjust(p, 0) == p
  {
  }
}
