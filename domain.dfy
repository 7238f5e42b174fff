/**
 * The records of the price manager and the pure computations on them:
 * the margin shown with every product, the rounding of a bulk price
 * change, the partial-update (patch) semantics and the bulk selection.
 *
 * Money is kept in integer cents, a margin in hundredths of a percent
 * and a bulk percentage in hundredths of a percent, so that the two
 * decimal places the service rounds to are exact integers here.
 * Timestamps are readings of a logical clock (see Store).
 */
module Domain {

  datatype Option<+T> = None | Some(value: T) {
    function GetOr(default: T): T {
      match this
      case Some(v) => v
      case None => default
    }
  }

  /** The only application-level failure: the addressed product is absent. */
  datatype Error = NotFound

  datatype Result<+T> = Ok(value: T) | Err(error: Error)

  /** A stored product; `id` is assigned by the store. */
  datatype Product = Product(
    id: int,
    name: string,
    category: string,
    cost: int,
    price: int,
    createdAt: int,
    updatedAt: int)

  /** The body of a creation request. */
  datatype ProductCreate = ProductCreate(name: string, category: string, cost: int, price: int)

  /** The body of an update request: `None` is a field the request leaves out. */
  datatype ProductUpdate = ProductUpdate(
    name: Option<string>,
    category: Option<string>,
    cost: Option<int>,
    price: Option<int>)

  /** The read view of a product: the persisted fields plus the derived margin. */
  datatype ProductRead = ProductRead(
    id: int,
    name: string,
    category: string,
    cost: int,
    price: int,
    createdAt: int,
    updatedAt: int,
    margin: int)

  /** One immutable price-change record; `productId` is a plain back-reference. */
  datatype PriceHistory = PriceHistory(
    id: int,
    productId: int,
    oldPrice: int,
    newPrice: int,
    reason: Option<string>,
    createdAt: int)

  /** The body of a bulk request; `percentage` is in hundredths of a percent. */
  datatype BulkIncreaseRequest = BulkIncreaseRequest(
    percentage: int,
    category: Option<string>,
    reason: Option<string>)

  /** What a bulk request answers: only a zero count on an empty selection,
      otherwise the count together with the percentage and category echoed. */
  datatype BulkResponse =
    | NothingUpdated
    | Applied(updated: nat, percentage: int, category: Option<string>)
  {
    function Updated(): nat {
      match this
      case NothingUpdated => 0
      case Applied(n, _, _) => n
    }
  }

  const IndividualReason: string := "Actualización individual"
  const DefaultBulkReason: string := "Ajuste masivo"
  const DeletedDetail: string := "Producto eliminado"

  /** A bulk request in which the caller supplied no reason. */
  function NewBulkRequest(percentage: int, category: Option<string>): (req: BulkIncreaseRequest)
    ensures req.percentage == percentage && req.category == category
    ensures req.reason == Some(DefaultBulkReason)
  {
    BulkIncreaseRequest(percentage, category, Some(DefaultBulkReason))
  }

  function Abs(x: int): nat {
    if x < 0 then -x else x
  }

  /** n / d rounded to the nearest integer, ties to the even neighbour,
      which is how the service's rounding treats an exact half. */
  function RoundHalfEven(n: int, d: int): (r: int)
    requires d > 0
    ensures 2 * Abs(n - r * d) <= d
    ensures 2 * Abs(n - r * d) == d ==> r % 2 == 0
  {
    var q, m := n / d, n % d;
    assert n - q * d == m;
    if 2 * m < d then q
    else if 2 * m > d then q + 1
    else if q % 2 == 0 then q
    else q + 1
  }

  /** The margin of `price` over `cost` in hundredths of a percent: zero when
      the cost is zero, otherwise the exact markup rounded to two decimals. */
  function ComputeMargin(cost: int, price: int): (r: int)
    ensures cost == 0 ==> r == 0
    ensures cost != 0 ==> 2 * Abs((price - cost) * 10000 - r * cost) <= Abs(cost)
  {
    if cost == 0 then 0
    else
      var n := (price - cost) * 10000;
      if cost > 0 then RoundHalfEven(n, cost)
      else
        var r := RoundHalfEven(-n, -cost);
        assert -n - r * (-cost) == -(n - r * cost);
        r
  }

  /** The persisted part of a read view. */
  function Stored(v: ProductRead): Product {
    Product(v.id, v.name, v.category, v.cost, v.price, v.createdAt, v.updatedAt)
  }

  /** The view returned for a stored product: nothing of the stored product
      is lost, and the margin is derived from its cost and price. */
  function ProductToRead(p: Product): (v: ProductRead)
    ensures Stored(v) == p
    ensures v.margin == ComputeMargin(p.cost, p.price)
  {
    ProductRead(p.id, p.name, p.category, p.cost, p.price, p.createdAt, p.updatedAt,
                ComputeMargin(p.cost, p.price))
  }

  /** The price in cents after a bulk change of `percentage` hundredths of a
      percent: the old price times 1 + percentage / 100, rounded to cents. */
  function AdjustPrice(oldPrice: int, percentage: int): (r: int)
    ensures 2 * Abs(oldPrice * (10000 + percentage) - r * 10000) <= 10000
  {
    RoundHalfEven(oldPrice * (10000 + percentage), 10000)
  }

  // ---------- Partial update ----------

  /** One supplied field of an update request, as a key with its value. */
  datatype FieldValue =
    | NameValue(name: string)
    | CategoryValue(category: string)
    | CostValue(cost: int)
    | PriceValue(price: int)

  /** The supplied fields of an update request, in declaration order:
      the request without the fields it leaves out. */
  function SuppliedFields(u: ProductUpdate): (fs: seq<FieldValue>)
    ensures |fs| <= 4
    ensures forall f :: f in fs ==>
      match f
      case NameValue(v) => u.name == Some(v)
      case CategoryValue(v) => u.category == Some(v)
      case CostValue(v) => u.cost == Some(v)
      case PriceValue(v) => u.price == Some(v)
    ensures u.name.Some? ==> NameValue(u.name.value) in fs
    ensures u.category.Some? ==> CategoryValue(u.category.value) in fs
    ensures u.cost.Some? ==> CostValue(u.cost.value) in fs
    ensures u.price.Some? ==> PriceValue(u.price.value) in fs
  {
    (if u.name.Some? then [NameValue(u.name.value)] else [])
    + (if u.category.Some? then [CategoryValue(u.category.value)] else [])
    + (if u.cost.Some? then [CostValue(u.cost.value)] else [])
    + (if u.price.Some? then [PriceValue(u.price.value)] else [])
  }

  /** Overwrites one attribute of a product. */
  function SetAttr(p: Product, f: FieldValue): (q: Product)
    ensures q.id == p.id && q.createdAt == p.createdAt && q.updatedAt == p.updatedAt
    ensures q.name == (if f.NameValue? then f.name else p.name)
    ensures q.category == (if f.CategoryValue? then f.category else p.category)
    ensures q.cost == (if f.CostValue? then f.cost else p.cost)
    ensures q.price == (if f.PriceValue? then f.price else p.price)
  {
    match f
    case NameValue(v) => p.(name := v)
    case CategoryValue(v) => p.(category := v)
    case CostValue(v) => p.(cost := v)
    case PriceValue(v) => p.(price := v)
  }

  /** Overwrites the attributes of `fs` one after the other. */
  function ApplyFields(p: Product, fs: seq<FieldValue>): Product
    decreases |fs|
  {
    if fs == [] then p else SetAttr(ApplyFields(p, fs[..|fs| - 1]), fs[|fs| - 1])
  }

  /** The reference patch semantics: a supplied field replaces the stored
      one, an omitted field keeps it; identity and timestamps are untouched. */
  function Patch(p: Product, u: ProductUpdate): Product {
    p.(name := u.name.GetOr(p.name),
       category := u.category.GetOr(p.category),
       cost := u.cost.GetOr(p.cost),
       price := u.price.GetOr(p.price))
  }

  /** Setting the supplied fields one by one is the patch semantics. */
  lemma SetAttrLoopIsPatch(p: Product, u: ProductUpdate)
    ensures ApplyFields(p, SuppliedFields(u)) == Patch(p, u)
  {
    var a := if u.name.Some? then [NameValue(u.name.value)] else [];
    var b := if u.category.Some? then [CategoryValue(u.category.value)] else [];
    var c := if u.cost.Some? then [CostValue(u.cost.value)] else [];
    var d := if u.price.Some? then [PriceValue(u.price.value)] else [];
    ApplyFieldsAppend(p, a, b);
    ApplyFieldsAppend(p, a + b, c);
    ApplyFieldsAppend(p, a + b + c, d);
  }

  /** The update loop: each supplied field is set on the product in turn. */
  method SetSuppliedFields(product: Product, u: ProductUpdate) returns (q: Product)
    ensures q == Patch(product, u)
  {
    var updateData := SuppliedFields(u);
    q := product;
    var i := 0;
    while i < |updateData|
      invariant 0 <= i <= |updateData|
      invariant q == ApplyFields(product, updateData[..i])
    {
      assert updateData[..i + 1][..i] == updateData[..i];
      q := SetAttr(q, updateData[i]);
      i := i + 1;
    }
    assert updateData[..i] == updateData;
    SetAttrLoopIsPatch(product, u);
  }

  lemma {:induction false} ApplyFieldsAppend(p: Product, xs: seq<FieldValue>, ys: seq<FieldValue>)
    ensures ApplyFields(p, xs + ys) == ApplyFields(ApplyFields(p, xs), ys)
    decreases |ys|
  {
    if ys == [] {
      assert xs + ys == xs;
    } else {
      var n := |ys| - 1;
      assert (xs + ys)[..|xs + ys| - 1] == xs + ys[..n];
      ApplyFieldsAppend(p, xs, ys[..n]);
    }
  }

  /** Whether an update request changes the price it finds stored: the price
      is supplied and differs from it. */
  predicate PriceChanged(u: ProductUpdate, storedPrice: int): (b: bool)
    ensures b <==> exists v :: PriceValue(v) in SuppliedFields(u) && v != storedPrice
  {
    u.price.Some? && u.price.value != storedPrice
  }

  // ---------- Bulk selection ----------

  /** A bulk request's category filter: an absent or empty category (a falsy
      value) keeps every product, any other keeps the exact matches. */
  predicate Selects(category: Option<string>, p: Product): (b: bool)
    ensures category.None? || category == Some("") ==> b
    ensures category.Some? && category.value != "" ==> (b <==> p.category == category.value)
  {
    category.None? || category.value == "" || p.category == category.value
  }

  /** The ids a bulk request with this category filter acts on. */
  function SelectedIds(products: map<int, Product>, category: Option<string>): (ids: set<int>)
    ensures ids <= products.Keys
    ensures category.None? || category == Some("") ==> ids == products.Keys
    ensures category.Some? && category.value != "" ==>
      forall id :: id in ids <==> id in products && products[id].category == category.value
  {
    set id | id in products && Selects(category, products[id])
  }
}
