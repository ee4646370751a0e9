/**
 * The admin handlers that change or list tables (routes/admin.js): product create and
 * update with their image, attribute and price-tier loops, and the product and order
 * lists with their filters and pagination.
 */
module Admin {
  import opened Wrappers
  import opened Seqs
  import opened Strings
  import opened AdminForms
  import Catalog
  import Orders
  import Pagination
  import Upload

  datatype StoredProduct = StoredProduct(id: int, values: ProductValues)

  const ProductsPath := "/admin/urunler"
  const NewProductPath := "/admin/urunler/ekle"

  /** The rows a product create adds, in the order the handler creates them. */
  datatype Created = Created(images: seq<Image>, attributes: seq<Attribute>, tiers: seq<Tier>, failed: bool)

  /**
   * POST /admin/urunler/ekle after `Product.create` gave the product `id`: images first,
   * then attributes, then tiers. An exception in the attribute loop skips the tier loop;
   * nothing already created is undone: the rows made before a throw stay.
   */
  function CreatedRows(id: int, files: seq<string>, names: FormList, values: FormList,
                       mins: FormList, maxs: FormList, prices: FormList): (c: Created)
    ensures c.images == ImageRows(id, files, 0)
    ensures c.attributes == AttributeRows(id, names, values).rows
    ensures c.failed <==> AttributeRows(id, names, values).failed || TierRows(id, mins, maxs, prices).failed
    ensures AttributeRows(id, names, values).failed ==> c.tiers == []
    ensures !AttributeRows(id, names, values).failed ==> c.tiers == TierRows(id, mins, maxs, prices).rows
  {
    var a := AttributeRows(id, names, values);
    if a.failed then Created(ImageRows(id, files, 0), a.rows, [], true)
    else
      var t := TierRows(id, mins, maxs, prices);
      Created(ImageRows(id, files, 0), a.rows, t.rows, t.failed)
  }

  /** The `for` over uploaded files. */
  method NewImages(productId: int, files: seq<string>, base: int) returns (rows: seq<Image>)
    ensures rows == ImageRows(productId, files, base)
  {
    rows := [];
    var i := 0;
    while i < |files|
      invariant 0 <= i <= |files|
      invariant rows == ImageRows(productId, files[..i], base)
    {
      ImageRowsSnoc(productId, files[..i + 1], base);
      assert files[..i + 1][..i] == files[..i];
      rows := rows + [Image(productId, "/uploads/products/" + files[i], base + i)];
      i := i + 1;
    }
    assert files[..i] == files;
  }

  lemma ImageRowsSnoc(productId: int, files: seq<string>, base: int)
    requires files != []
    ensures ImageRows(productId, files, base)
         == ImageRows(productId, files[..|files| - 1], base)
            + [Image(productId, "/uploads/products/" + files[|files| - 1], base + |files| - 1)]
  {
    var a := ImageRows(productId, files, base);
    var b := ImageRows(productId, files[..|files| - 1], base);
    forall k | 0 <= k < |files| - 1
      ensures a[k] == b[k]
    {
      assert a[k] == Image(productId, Upload.PublicPrefix(Upload.ProductImages) + files[k], base + k);
      assert b[k] == Image(productId, Upload.PublicPrefix(Upload.ProductImages) + files[k], base + k);
    }
    assert a[|files| - 1] == Image(productId, Upload.PublicPrefix(Upload.ProductImages) + files[|files| - 1], base + |files| - 1);
  }

  /** A row loop that stops at the first exception, as the attribute and tier loops do. */
  method RunRowLoop<R>(n: nat, step: nat -> Step<R>) returns (r: RowsResult<R>)
    ensures r == Collect(n, step)
  {
    r := RowsResult([], false);
    var i := 0;
    while i < n && !r.failed
      invariant 0 <= i <= n
      invariant r == Collect(i, step)
    {
      match step(i) {
        case Skip =>
        case Emit(x) => r := RowsResult(r.rows + [x], false);
        case Throw => r := RowsResult(r.rows, true);
      }
      i := i + 1;
    }
    if r.failed {
      CollectStops(i, n, step);
    }
  }

  method FindProduct(products: seq<StoredProduct>, id: int) returns (i: int)
    ensures i == FirstIndex(products, (p: StoredProduct) => p.id == id)
  {
    i := 0;
    while i < |products| && products[i].id != id
      invariant 0 <= i <= |products|
      invariant forall j :: 0 <= j < i ==> products[j].id != id
    {
      i := i + 1;
    }
    if i == |products| {
      i := -1;
    }
  }

  /**
   * The unique index on `parca_no` (models/Product.js:21): another row than `except`
   * already holds the part number.
   */
  predicate PartNoTaken(products: seq<StoredProduct>, partNo: Option<string>, except: int)
  {
    exists j :: 0 <= j < |products| && j != except && products[j].values.partNo == partNo
  }

  /** The database stores `v` beside the rows other than `except`: no validation or index fails. */
  predicate Storable(products: seq<StoredProduct>, v: ProductValues, except: int)
  {
    RowValid(v) && !PartNoTaken(products, v.partNo, except)
  }

  /** The outcome of an edit POST: redirected to the list, or, when the update throws, to the form. */
  datatype EditOutcome = UnknownProduct | Rejected | Updated

  /** The product, image, attribute and price-tier tables as the admin handlers change them. */
  class Backoffice {
    var products: seq<StoredProduct>
    var images: seq<Image>
    var attributes: seq<Attribute>
    var tiers: seq<Tier>

    constructor ()
      ensures products == [] && images == [] && attributes == [] && tiers == []
    {
      products, images, attributes, tiers := [], [], [], [];
    }

    /**
     * POST /admin/urunler/ekle (routes/admin.js:180-252); `id` is the key the database
     * assigns, which auto-increment keeps apart from every stored id. The answer is the redirect: the list, or the form again after an exception.
     * When `Product.create` itself throws nothing at all is created.
     */
    method CreateProduct(id: int, form: ProductForm, files: seq<string>, names: FormList, values: FormList,
                         mins: FormList, maxs: FormList, prices: FormList) returns (redirect: string)
      requires forall p :: p in products ==> p.id != id
      modifies this
      ensures !Storable(old(products), ProductValuesOf(form), -1) ==>
        && products == old(products) && images == old(images)
        && attributes == old(attributes) && tiers == old(tiers)
        && redirect == NewProductPath
      ensures Storable(old(products), ProductValuesOf(form), -1) ==>
        var c := CreatedRows(id, files, names, values, mins, maxs, prices);
        && products == old(products) + [StoredProduct(id, ProductValuesOf(form))]
        && images == old(images) + c.images
        && attributes == old(attributes) + c.attributes
        && tiers == old(tiers) + c.tiers
        && redirect == (if c.failed then NewProductPath else ProductsPath)
    {
      if !Storable(products, ProductValuesOf(form), -1) {
        return NewProductPath;
      }
      products := products + [StoredProduct(id, ProductValuesOf(form))];
      var made := NewImages(id, files, 0);
      images := images + made;
      var a := RowsResult([], false);
      if names.Many? {
        a := RunRowLoop(|names.items|, (i: nat) => AttributeStep(id, names.items, values, i));
      }
      attributes := attributes + a.rows;
      if a.failed {
        return NewProductPath;
      }
      var t := RowsResult([], false);
      if mins.Many? {
        t := RunRowLoop(|mins.items|, TierStepAt(id, mins.items, maxs, prices));
      }
      tiers := tiers + t.rows;
      redirect := if t.failed then NewProductPath else ProductsPath;
    }

    /**
     * POST /admin/urunler/duzenle/:id (routes/admin.js:287-338): an unknown id changes
     * nothing (redirect to the list); an update the database refuses changes nothing
     * (redirect to the form); otherwise the sent fields are written over the stored ones
     * and the new files are appended as images numbered after the highest existing one.
     */
    method EditProduct(id: int, form: ProductForm, files: seq<string>) returns (outcome: EditOutcome)
      modifies this
      ensures attributes == old(attributes) && tiers == old(tiers)
      ensures var i := FirstIndex(old(products), (p: StoredProduct) => p.id == id);
        && (outcome == UnknownProduct <==> i == -1)
        && (outcome != Updated ==> products == old(products) && images == old(images))
        && (i >= 0 ==>
              var v := EditValuesOf(old(products)[i].values, form);
              && (outcome == Rejected <==> !Storable(old(products), v, i))
              && (outcome == Updated ==>
                    products == old(products)[i := StoredProduct(id, v)]
                    && images == old(images) + ImageRows(id, files, MaxOrderOr0(old(images), id) + 1)))
    {
      var i := FindProduct(products, id);
      if i < 0 {
        return UnknownProduct;
      }
      var v := EditValuesOf(products[i].values, form);
      if !Storable(products, v, i) {
        return Rejected;
      }
      products := products[i := StoredProduct(id, v)];
      if |files| > 0 {
        var made := NewImages(id, files, MaxOrderOr0(images, id) + 1);
        images := images + made;
      }
      outcome := Updated;
    }
  }

  // ---------------------------------------------------------------------------
  // Lists

  /** The query of GET /admin/urunler; `None` for a parameter not sent (or, for `ara`, empty). */
  datatype ProductQuery = ProductQuery(q: Option<string>, category: Option<int>, brand: Option<int>,
                                       active: Option<int>)

  /** The `whereConditions` of the admin product list (routes/admin.js:117-126): inactive products too. */
  predicate InAdminProductList(p: Catalog.Product, f: ProductQuery)
  {
    && (f.q.Some? && f.q.value != "" ==> Catalog.Like(p.name, f.q.value) || Catalog.Like(p.partNo, f.q.value))
    && (f.category.Some? ==> p.categoryId == f.category.value)
    && (f.brand.Some? ==> p.brandId == Some(f.brand.value))
    && (f.active.Some? ==> p.active == f.active.value)
  }

  function ProductKeep(f: ProductQuery): Catalog.Product -> bool
  {
    p => InAdminProductList(p, f)
  }

  /** GET /admin/urunler: 20 per page, newest first. */
  function AdminProductPage(products: seq<Catalog.Product>, f: ProductQuery, page: int): Option<Catalog.Listing>
  {
    Catalog.ListPage(products, ProductKeep(f), Catalog.Newest, page, Pagination.AdminPageSize)
  }

  /**
   * The admin product list pages by 20 and orders newest first, page `page` holding the
   * matches from position (page - 1) * 20 on; unlike the storefront it does not restrict
   * to active products, so without filters it counts every product.
   */
  lemma AdminProductPageRules(products: seq<Catalog.Product>, f: ProductQuery, page: int)
    ensures var r := AdminProductPage(products, f, page);
      var matching := Catalog.SortBy(Catalog.Newest, Filter(products, ProductKeep(f)));
      && (r.Some? <==> page >= 1)
      && (r.Some? ==>
            |r.value.rows| <= 20 && Catalog.Sorted(Catalog.Newest, r.value.rows)
            && r.value.total == |matching|
            && r.value.pages == Pagination.TotalPages(r.value.total, 20)
            && (forall i :: 0 <= i < |r.value.rows| ==>
                  (page - 1) * 20 + i < |matching| && r.value.rows[i] == matching[(page - 1) * 20 + i])
            && ((page - 1) * 20 <= |matching| ==>
                  |r.value.rows| == if page * 20 <= |matching| then 20 else |matching| - (page - 1) * 20)
            && forall p :: p in r.value.rows ==> p in products && InAdminProductList(p, f))
  {
    var r := AdminProductPage(products, f, page);
    if r.Some? {
      Catalog.ListPageContents(products, ProductKeep(f), Catalog.Newest, page, 20);
      forall p | p in r.value.rows
        ensures InAdminProductList(p, f)
      {
        assert ProductKeep(f)(p);
      }
    }
  }

  /** Without filters the admin product list counts every product, inactive ones too. */
  lemma UnfilteredProductListCountsAll(products: seq<Catalog.Product>, page: int)
    requires page >= 1
    ensures AdminProductPage(products, ProductQuery(None, None, None, None), page).value.total == |products|
  {
    FilterKeepsAll(products, ProductKeep(ProductQuery(None, None, None, None)));
  }

  /**
   * The `whereConditions` of the admin order list (routes/admin.js:459-461). The ENUM
   * column compares under the case-insensitive collation, so ASCII letters are folded.
   */
  predicate InAdminOrderList(o: Orders.Order, status: Option<string>, q: Option<string>)
  {
    && (status.Some? && status.value != "" ==> Lower(o.status.Label()) == Lower(status.value))
    && (q.Some? && q.value != "" ==> Catalog.Like(o.number, q.value))
  }

  function OrderKeep(status: Option<string>, q: Option<string>): Orders.Order -> bool
  {
    o => InAdminOrderList(o, status, q)
  }

  datatype OrderPage = OrderPage(rows: seq<Orders.Order>, total: nat, pages: nat)

  /**
   * GET /admin/siparisler: 20 per page, page `page` holding the matching orders from
   * position (page - 1) * 20 on. The orders are taken in the order given; the query sorts
   * by `created_at DESC`, which `Order` does not carry, so the caller passes them newest first.
   */
  function AdminOrderPage(orders: seq<Orders.Order>, status: Option<string>, q: Option<string>, page: int): (r: Option<OrderPage>)
    ensures r.Some? <==> page >= 1
    ensures r.Some? ==>
      var selected := Filter(orders, OrderKeep(status, q));
      && r.value.total == |selected|
      && |r.value.rows| <= 20 && r.value.pages == Pagination.TotalPages(r.value.total, 20)
      && (forall i :: 0 <= i < |r.value.rows| ==>
            (page - 1) * 20 + i < |selected| && r.value.rows[i] == selected[(page - 1) * 20 + i])
      && ((page - 1) * 20 <= |selected| ==>
            |r.value.rows| == if page * 20 <= |selected| then 20 else |selected| - (page - 1) * 20)
  {
    var selected := Filter(orders, OrderKeep(status, q));
    match Pagination.PageOf(selected, page, Pagination.AdminPageSize)
    case None => None
    case Some(rows) => Some(OrderPage(rows, |selected|, Pagination.TotalPages(|selected|, Pagination.AdminPageSize)))
  }

  lemma LowerKargoda()
    ensures Lower("KARGODA") == "kargoda"
  {
    var r := Lower("KARGODA");
    assert r[0] == LowerChar('K') == 'k';
    assert r[1] == LowerChar('A') == 'a';
    assert r[2] == LowerChar('R') == 'r';
    assert r[3] == LowerChar('G') == 'g';
    assert r[4] == LowerChar('O') == 'o';
    assert r[5] == LowerChar('D') == 'd';
    assert r[6] == LowerChar('A') == 'a';
  }

  /** `durum=KARGODA` lists the shipped orders: the ENUM comparison ignores case. */
  lemma UpperCaseStatusMatches(o: Orders.Order)
    requires o.status == Orders.Shipped
    ensures InAdminOrderList(o, Some("KARGODA"), None)
  {
    LowerKargoda();
    Orders.LabelIsLowercase(o.status);
  }

  /**
   * Every listed order passes the filters, and a status filter that names no status of
   * the ENUM in any letter case matches no order at all.
   */
  lemma AdminOrderPageRules(orders: seq<Orders.Order>, status: Option<string>, q: Option<string>, page: int)
    requires page >= 1
    ensures forall o :: o in AdminOrderPage(orders, status, q, page).value.rows ==>
      o in orders && InAdminOrderList(o, status, q)
    ensures status.Some? && status.value != "" && Orders.ParseOrderStatus(Lower(status.value)).None? ==>
      AdminOrderPage(orders, status, q, page).value.total == 0
  {
    var r := AdminOrderPage(orders, status, q, page);
    var selected := Filter(orders, OrderKeep(status, q));
    forall o | o in r.value.rows
      ensures o in orders && InAdminOrderList(o, status, q)
    {
      var i :| 0 <= i < |r.value.rows| && r.value.rows[i] == o;
      assert o in selected;
      assert OrderKeep(status, q)(o);
    }
    if status.Some? && status.value != "" && Orders.ParseOrderStatus(Lower(status.value)).None? {
      forall i | 0 <= i < |orders|
        ensures !OrderKeep(status, q)(orders[i])
      {
        Orders.LabelIsLowercase(orders[i].status);
        Orders.StatusLabelsRoundTrip(Orders.PaymentPending, orders[i].status);
      }
      FilterNone(orders, OrderKeep(status, q));
    }
  }
}
