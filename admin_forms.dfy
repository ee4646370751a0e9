/**
 * The form-to-record rules of the admin panel (routes/admin.js): the `x || default`
 * and `x ? 1 : 0` choices of the product, category, brand and slider forms, the
 * `sira_no` numbering of product images, and the rows the attribute and price-tier
 * loops create from the parallel form arrays.
 *
 * A form field is `Option<string>`: `None` when the field was not sent. Text that the
 * database would convert (prices, ids, numbers) is kept as the submitted text.
 */
module AdminForms {
  import opened Wrappers
  import Strings
  import Upload

  // ---------------------------------------------------------------------------
  // JavaScript truthiness of a submitted field

  /** A field is truthy when it was sent and is not the empty string. */
  predicate Given(v: Option<string>)
  {
    v.Some? && v.value != ""
  }

  /** `v || d`. */
  function Or(v: Option<string>, d: string): (r: string)
  {
    if Given(v) then v.value else d
  }

  /** `v || null`. */
  function OrNull(v: Option<string>): (r: Option<string>)
  {
    if Given(v) then v else None
  }

  /** `v ? 1 : 0`: a checkbox. */
  function Flag(v: Option<string>): (r: int)
  {
    if Given(v) then 1 else 0
  }

  /** A stored file name under the prefix its directory is served from, or `null`. */
  function FileUrl(d: Upload.Destination, file: Option<string>): (r: Option<string>)
  {
    if file.Some? then Some(Upload.PublicPrefix(d) + file.value) else None
  }

  // ---------------------------------------------------------------------------
  // Product create and update (routes/admin.js:190-205, 302-317)

  datatype ProductForm = ProductForm(
    partNo: Option<string>,
    name: Option<string>,
    categoryId: Option<string>,
    brandId: Option<string>,
    description: Option<string>,
    summary: Option<string>,
    price: Option<string>,
    vat: Option<string>,
    stock: Option<string>,
    minOrder: Option<string>,
    packageType: Option<string>,
    datasheetUrl: Option<string>,
    active: Option<string>,
    featured: Option<string>)

  datatype ProductValues = ProductValues(
    partNo: Option<string>,
    name: Option<string>,
    categoryId: Option<string>,
    brandId: Option<string>,
    description: Option<string>,
    summary: Option<string>,
    price: Option<string>,
    vat: string,
    stock: string,
    minOrder: string,
    packageType: string,
    datasheetUrl: Option<string>,
    active: int,
    featured: int)

  const DefaultVat := "20"
  const DefaultStock := "0"
  const DefaultMinOrder := "1"
  const DefaultPackage := "Diger"

  /** The attributes both `Product.create` and `urun.update` are given. */
  function ProductValuesOf(f: ProductForm): (v: ProductValues)
  {
    ProductValues(f.partNo, f.name, f.categoryId, OrNull(f.brandId), f.description, f.summary, f.price,
                  Or(f.vat, DefaultVat), Or(f.stock, DefaultStock), Or(f.minOrder, DefaultMinOrder),
                  Or(f.packageType, DefaultPackage), f.datasheetUrl, Flag(f.active), Flag(f.featured))
  }

  /**
   * An empty or missing VAT rate, stock, minimum order or package type takes 20, 0, 1 or
   * "Diger"; a given one is kept; an empty brand is null; the two checkboxes store 1
   * exactly when ticked; every other field is passed through.
   */
  lemma ProductDefaults(f: ProductForm)
    ensures var v := ProductValuesOf(f);
      && v.vat == (if Given(f.vat) then f.vat.value else "20")
      && v.stock == (if Given(f.stock) then f.stock.value else "0")
      && v.minOrder == (if Given(f.minOrder) then f.minOrder.value else "1")
      && v.packageType == (if Given(f.packageType) then f.packageType.value else "Diger")
      && (v.brandId.None? <==> !Given(f.brandId))
      && (v.brandId.Some? ==> v.brandId == f.brandId)
      && (v.active == 1 <==> Given(f.active)) && v.active in {0, 1}
      && (v.featured == 1 <==> Given(f.featured)) && v.featured in {0, 1}
      && v.partNo == f.partNo && v.name == f.name && v.categoryId == f.categoryId
      && v.price == f.price && v.description == f.description
  {
  }

  /**
   * The edit form as it is shown for stored values: every text input holds the stored
   * text (an empty input submits ""), each checkbox is ticked when its flag is 1.
   */
  function EditForm(v: ProductValues): ProductForm
  {
    ProductForm(Some(v.partNo.GetOr("")), Some(v.name.GetOr("")), Some(v.categoryId.GetOr("")),
                Some(v.brandId.GetOr("")), Some(v.description.GetOr("")), Some(v.summary.GetOr("")),
                Some(v.price.GetOr("")), Some(v.vat), Some(v.stock), Some(v.minOrder),
                Some(v.packageType), Some(v.datasheetUrl.GetOr("")),
                if v.active == 1 then Some("on") else None,
                if v.featured == 1 then Some("on") else None)
  }

  /**
   * Saving the edit form untouched keeps the defaulted fields, the brand and both flags;
   * and a second untouched save changes nothing at all.
   */
  lemma UntouchedEditKeepsValues(f: ProductForm)
    ensures var v := ProductValuesOf(f);
      var w := ProductValuesOf(EditForm(v));
      && w.vat == v.vat && w.stock == v.stock && w.minOrder == v.minOrder
      && w.packageType == v.packageType && w.brandId == v.brandId
      && w.active == v.active && w.featured == v.featured
      && ProductValuesOf(EditForm(w)) == w
  {
  }

  /** A field left undefined by the request keeps the stored value (Sequelize drops it from `update`). */
  function Keep(stored: Option<string>, sent: Option<string>): Option<string>
  {
    if sent.Some? then sent else stored
  }

  /**
   * The values after `urun.update({...})` on a product holding `stored`: the fields passed
   * through from the form keep their stored value when the form did not send them; the
   * defaulted fields, the brand and the checkboxes are always given a value.
   */
  function EditValuesOf(stored: ProductValues, f: ProductForm): (v: ProductValues)
    ensures f.partNo.None? ==> v.partNo == stored.partNo
    ensures f.name.None? ==> v.name == stored.name
    ensures f.categoryId.None? ==> v.categoryId == stored.categoryId
    ensures f.description.None? ==> v.description == stored.description
    ensures f.summary.None? ==> v.summary == stored.summary
    ensures f.price.None? ==> v.price == stored.price
    ensures f.datasheetUrl.None? ==> v.datasheetUrl == stored.datasheetUrl
    ensures var w := ProductValuesOf(f);
      && (f.partNo.Some? ==> v.partNo == w.partNo) && (f.name.Some? ==> v.name == w.name)
      && (f.categoryId.Some? ==> v.categoryId == w.categoryId)
      && (f.description.Some? ==> v.description == w.description)
      && (f.summary.Some? ==> v.summary == w.summary) && (f.price.Some? ==> v.price == w.price)
      && (f.datasheetUrl.Some? ==> v.datasheetUrl == w.datasheetUrl)
      && v.brandId == w.brandId && v.vat == w.vat && v.stock == w.stock && v.minOrder == w.minOrder
      && v.packageType == w.packageType && v.active == w.active && v.featured == w.featured
  {
    ProductValues(Keep(stored.partNo, f.partNo), Keep(stored.name, f.name), Keep(stored.categoryId, f.categoryId),
                  OrNull(f.brandId), Keep(stored.description, f.description), Keep(stored.summary, f.summary),
                  Keep(stored.price, f.price), Or(f.vat, DefaultVat), Or(f.stock, DefaultStock),
                  Or(f.minOrder, DefaultMinOrder), Or(f.packageType, DefaultPackage),
                  Keep(stored.datasheetUrl, f.datasheetUrl), Flag(f.active), Flag(f.featured))
  }

  /** A form that sends every text field is stored as given, whatever was stored before. */
  lemma FullEditIgnoresStored(stored: ProductValues, f: ProductForm)
    requires f.partNo.Some? && f.name.Some? && f.categoryId.Some? && f.description.Some?
    requires f.summary.Some? && f.price.Some? && f.datasheetUrl.Some?
    ensures EditValuesOf(stored, f) == ProductValuesOf(f)
  {
  }

  /** The `notEmpty` validator: the text is not made of white space alone (`/^[\s\t\r\n]*$/`). */
  predicate NotBlank(s: string)
  {
    exists i :: 0 <= i < |s| && !Strings.IsSpace(s[i])
  }

  /**
   * The column constraints one product row must meet (models/Product.js:11-33): `ad` and
   * `parca_no` not null and not blank, `kategori_id` not null.
   */
  predicate RowValid(v: ProductValues)
  {
    v.partNo.Some? && NotBlank(v.partNo.value) && v.name.Some? && NotBlank(v.name.value) && v.categoryId.Some?
  }

  /** A name of spaces alone is refused like an empty one. */
  lemma BlankNameRefused(v: ProductValues)
    requires v.name == Some("  ")
    ensures !RowValid(v)
  {
    assert Strings.IsSpace(v.name.value[0]) && Strings.IsSpace(v.name.value[1]);
  }

  // ---------------------------------------------------------------------------
  // Product images (routes/admin.js:208-216, 320-329)

  datatype Image = Image(productId: int, url: string, order: int)

  /** The images made for the uploaded files, in upload order, numbered from `base`. */
  function ImageRows(productId: int, files: seq<string>, base: int): (rows: seq<Image>)
    ensures |rows| == |files|
  {
    seq(|files|, i requires 0 <= i < |files| => Image(productId, Upload.PublicPrefix(Upload.ProductImages) + files[i], base + i))
  }

  /** `ProductImage.max('sira_no', { where: { urun_id } })`: `None` (SQL NULL) when the product has no image. */
  function MaxOrder(images: seq<Image>, productId: int): (m: Option<int>)
    ensures m.None? <==> forall k :: 0 <= k < |images| ==> images[k].productId != productId
    ensures m.Some? ==>
      (exists k :: 0 <= k < |images| && images[k].productId == productId && images[k].order == m.value)
      && forall k :: 0 <= k < |images| && images[k].productId == productId ==> images[k].order <= m.value
  {
    if images == [] then None
    else
      var last := images[|images| - 1];
      var m := MaxOrder(images[..|images| - 1], productId);
      if last.productId != productId then m
      else if m.None? || m.value < last.order then Some(last.order)
      else m
  }

  /** `max(...) || 0`. */
  function MaxOrderOr0(images: seq<Image>, productId: int): int
  {
    match MaxOrder(images, productId)
    case None => 0
    case Some(m) => if m == 0 then 0 else m
  }

  /** On create the images are numbered 0, 1, ... in upload order, each under the product image prefix. */
  lemma CreatedImageOrders(productId: int, files: seq<string>)
    ensures var rows := ImageRows(productId, files, 0);
      forall i :: 0 <= i < |rows| ==>
        rows[i].order == i && rows[i].productId == productId && rows[i].url == "/uploads/products/" + files[i]
  {
    var rows := ImageRows(productId, files, 0);
    forall i | 0 <= i < |rows|
      ensures rows[i].order == i && rows[i].productId == productId && rows[i].url == "/uploads/products/" + files[i]
    {
      assert rows[i] == Image(productId, Upload.PublicPrefix(Upload.ProductImages) + files[i], i);
    }
  }

  /**
   * On edit the new images continue after the highest existing number (or after 0):
   * consecutive, pairwise distinct, and above every number the product already has.
   */
  lemma AddedImageOrdersAreFresh(images: seq<Image>, productId: int, files: seq<string>)
    ensures var base := MaxOrderOr0(images, productId) + 1;
      var rows := ImageRows(productId, files, base);
      && (forall i :: 0 <= i < |rows| ==> rows[i].order == base + i)
      && (forall i, j :: 0 <= i < j < |rows| ==> rows[i].order < rows[j].order)
      && (forall i, k :: 0 <= i < |rows| && 0 <= k < |images| && images[k].productId == productId ==>
            images[k].order < rows[i].order)
  {
    var base := MaxOrderOr0(images, productId) + 1;
    var rows := ImageRows(productId, files, base);
    forall i, k | 0 <= i < |rows| && 0 <= k < |images| && images[k].productId == productId
      ensures images[k].order < rows[i].order
    {
      assert MaxOrder(images, productId).Some?;
    }
  }

  /**
   * Images added on edit to a product whose images all came from the create handler
   * continue its numbering without a gap; a product created without images starts at 1.
   */
  lemma EditNumberingFollowsCreate(productId: int, first: seq<string>)
    ensures MaxOrderOr0(ImageRows(productId, first, 0), productId) + 1 == if first == [] then 1 else |first|
  {
    var rows := ImageRows(productId, first, 0);
    var m := MaxOrder(rows, productId);
    if first != [] {
      assert rows[|first| - 1].productId == productId;
      var k :| 0 <= k < |rows| && rows[k].productId == productId && rows[k].order == m.value;
      assert m.value >= rows[|first| - 1].order;
    }
  }

  // ---------------------------------------------------------------------------
  // Attribute and price-tier rows (routes/admin.js:219-243)

  /** A body field that may hold one value or several (`ozellik_adi[]` sent once or many times). */
  datatype FormList = Absent | One(text: string) | Many(items: seq<string>)

  /** The value of `field[i]` in JavaScript. */
  datatype Indexed = Undefined | Item(text: string) | Thrown

  /**
   * `field[i]`: an element of an array, a one-character string of a plain string, and a
   * TypeError on `undefined`.
   */
  function At(field: FormList, i: nat): (r: Indexed)
  {
    match field
    case Absent => Thrown
    case One(s) => if i < |s| then Item([s[i]]) else Undefined
    case Many(items) => if i < |items| then Item(items[i]) else Undefined
  }

  predicate Truthy(x: Indexed)
  {
    x.Item? && x.text != ""
  }

  /** What one iteration of a row loop does: nothing, create a row, or throw. */
  datatype Step<R> = Skip | Emit(row: R) | Throw

  /** The rows a loop has created, and whether it stopped on an exception. */
  datatype RowsResult<R> = RowsResult(rows: seq<R>, failed: bool)

  /** The loop `for (i = 0; i < n; i++)` with body `step(i)`, which stops at the first throw. */
  function Collect<R>(n: nat, step: nat -> Step<R>): RowsResult<R>
  {
    if n == 0 then RowsResult([], false)
    else
      var r := Collect(n - 1, step);
      if r.failed then r
      else match step(n - 1)
        case Skip => r
        case Emit(x) => RowsResult(r.rows + [x], false)
        case Throw => RowsResult(r.rows, true)
  }

  /** Once the loop has thrown, later iterations add nothing. */
  lemma {:induction false} CollectStops<R>(k: nat, n: nat, step: nat -> Step<R>)
    requires k <= n && Collect(k, step).failed
    ensures Collect(n, step) == Collect(k, step)
    decreases n
  {
    if n > k {
      CollectStops(k, n - 1, step);
    }
  }

  /**
   * The loop throws exactly when some iteration throws; and when it does not, it creates
   * exactly the rows its iterations emit, at most one per iteration.
   */
  lemma {:induction false} CollectRows<R>(n: nat, step: nat -> Step<R>)
    ensures Collect(n, step).failed <==> exists i :: 0 <= i < n && step(i).Throw?
    ensures |Collect(n, step).rows| <= n
    ensures !Collect(n, step).failed ==>
      forall x :: x in Collect(n, step).rows <==> exists i :: 0 <= i < n && step(i) == Emit(x)
  {
    if n > 0 {
      CollectRows(n - 1, step);
      var r := Collect(n - 1, step);
      if r.failed {
        var i :| 0 <= i < n - 1 && step(i).Throw?;
        assert 0 <= i < n && step(i).Throw?;
      }
    }
  }

  /** Rows are only ever appended: without a throw, the first k iterations' rows come first. */
  lemma {:induction false} CollectPrefix<R>(k: nat, n: nat, step: nat -> Step<R>)
    requires k <= n && !Collect(n, step).failed
    ensures Collect(k, step).rows <= Collect(n, step).rows
    decreases n
  {
    if k < n {
      CollectPrefix(k, n - 1, step);
    }
  }

  /** When every iteration creates a row, the rows are the iterations' rows in order. */
  lemma {:induction false} CollectAllEmit<R>(n: nat, step: nat -> Step<R>)
    requires forall i :: 0 <= i < n ==> step(i).Emit?
    ensures !Collect(n, step).failed && |Collect(n, step).rows| == n
    ensures forall i :: 0 <= i < n ==> Collect(n, step).rows[i] == step(i).row
  {
    if n > 0 {
      CollectAllEmit(n - 1, step);
    }
  }

  datatype Attribute = Attribute(productId: int, name: string, value: string)

  /** `if (ozellik_adi[i] && ozellik_degeri[i]) ProductAttribute.create(...)`. */
  function AttributeStep(productId: int, names: seq<string>, values: FormList, i: nat): Step<Attribute>
  {
    if i >= |names| || names[i] == "" then Skip
    else match At(values, i)
      case Thrown => Throw
      case Undefined => Skip
      case Item(v) => if v == "" then Skip else Emit(Attribute(productId, names[i], v))
  }

  /** The attribute loop runs only when `ozellik_adi` is an array (routes/admin.js:219). */
  function AttributeRows(productId: int, names: FormList, values: FormList): RowsResult<Attribute>
  {
    match names
    case Many(ns) => Collect(|ns|, (i: nat) => AttributeStep(productId, ns, values, i))
    case _ => RowsResult([], false)
  }

  /**
   * A single attribute row (a plain string) creates nothing; otherwise the loop fails
   * exactly when a name is given and the value list is missing, and else creates one
   * row for each index where both the name and the value are non-empty.
   */
  lemma AttributeRowsRules(productId: int, names: FormList, values: FormList)
    ensures !names.Many? ==> AttributeRows(productId, names, values) == RowsResult([], false)
    ensures names.Many? ==>
      (AttributeRows(productId, names, values).failed <==>
         values.Absent? && exists i :: 0 <= i < |names.items| && names.items[i] != "")
    ensures names.Many? && !AttributeRows(productId, names, values).failed ==>
      forall a :: a in AttributeRows(productId, names, values).rows <==>
        exists i :: 0 <= i < |names.items| && names.items[i] != "" && Truthy(At(values, i))
                    && a == Attribute(productId, names.items[i], At(values, i).text)
  {
    if names.Many? {
      var ns := names.items;
      var step := (i: nat) => AttributeStep(productId, ns, values, i);
      CollectRows(|ns|, step);
      if values.Absent? && exists i :: 0 <= i < |ns| && ns[i] != "" {
        var i :| 0 <= i < |ns| && ns[i] != "";
        assert step(i).Throw?;
      }
      forall a ensures (exists i :: 0 <= i < |ns| && step(i) == Emit(a)) <==>
        exists i :: 0 <= i < |ns| && ns[i] != "" && Truthy(At(values, i)) && a == Attribute(productId, ns[i], At(values, i).text)
      {
        if exists i :: 0 <= i < |ns| && step(i) == Emit(a) {
          var i :| 0 <= i < |ns| && step(i) == Emit(a);
          assert ns[i] != "" && Truthy(At(values, i)) && a == Attribute(productId, ns[i], At(values, i).text);
        }
        if exists i :: 0 <= i < |ns| && ns[i] != "" && Truthy(At(values, i)) && a == Attribute(productId, ns[i], At(values, i).text) {
          var i :| 0 <= i < |ns| && ns[i] != "" && Truthy(At(values, i)) && a == Attribute(productId, ns[i], At(values, i).text);
          assert step(i) == Emit(a);
        }
      }
    }
  }

  datatype Tier = Tier(productId: int, min: string, max: Option<string>, price: string)

  /** `kademe_max[i] || null`, read only after the row has passed its test. */
  function TierMax(x: Indexed): Option<string>
  {
    if Truthy(x) then Some(x.text) else None
  }

  /** `if (kademe_min[i] && kademe_fiyat[i]) ProductPriceTier.create({ ..., max_adet: kademe_max[i] || null, ... })`. */
  function TierStep(productId: int, mins: seq<string>, maxs: FormList, prices: FormList, i: nat): Step<Tier>
  {
    if i >= |mins| || mins[i] == "" then Skip
    else match At(prices, i)
      case Thrown => Throw
      case Undefined => Skip
      case Item(p) =>
        if p == "" then Skip
        else if maxs.Absent? then Throw
        else Emit(Tier(productId, mins[i], TierMax(At(maxs, i)), p))
  }

  function TierStepAt(productId: int, mins: seq<string>, maxs: FormList, prices: FormList): nat -> Step<Tier>
  {
    (i: nat) => TierStep(productId, mins, maxs, prices, i)
  }

  /** The tier loop runs only when `kademe_min` is an array (routes/admin.js:232). */
  function TierRows(productId: int, mins: FormList, maxs: FormList, prices: FormList): RowsResult<Tier>
  {
    match mins
    case Many(ms) => Collect(|ms|, TierStepAt(productId, ms, maxs, prices))
    case _ => RowsResult([], false)
  }

  /**
   * A single tier row (a plain string) creates nothing; otherwise, when the loop does not
   * throw, a tier exists iff some form row has a non-empty minimum and a non-empty price,
   * its maximum being `kademe_max[i] || null`; and the tiers of the first k form rows come
   * first, so the tiers are in form order.
   */
  lemma TierRowsRules(productId: int, mins: FormList, maxs: FormList, prices: FormList)
    ensures !mins.Many? ==> TierRows(productId, mins, maxs, prices) == RowsResult([], false)
    ensures mins.Many? && !TierRows(productId, mins, maxs, prices).failed ==>
      forall t :: t in TierRows(productId, mins, maxs, prices).rows <==>
        exists i :: 0 <= i < |mins.items| && mins.items[i] != "" && Truthy(At(prices, i))
                    && t == Tier(productId, mins.items[i], TierMax(At(maxs, i)), At(prices, i).text)
    ensures mins.Many? && !TierRows(productId, mins, maxs, prices).failed ==>
      forall k :: 0 <= k <= |mins.items| ==>
        Collect(k, TierStepAt(productId, mins.items, maxs, prices)).rows <= TierRows(productId, mins, maxs, prices).rows
  {
    if mins.Many? {
      var ms := mins.items;
      var step := TierStepAt(productId, ms, maxs, prices);
      CollectRows(|ms|, step);
      if !Collect(|ms|, step).failed {
        forall t ensures (exists i :: 0 <= i < |ms| && step(i) == Emit(t)) <==>
          exists i :: 0 <= i < |ms| && ms[i] != "" && Truthy(At(prices, i))
                      && t == Tier(productId, ms[i], TierMax(At(maxs, i)), At(prices, i).text)
        {
          if exists i :: 0 <= i < |ms| && step(i) == Emit(t) {
            var i :| 0 <= i < |ms| && step(i) == Emit(t);
            assert ms[i] != "" && Truthy(At(prices, i)) && t == Tier(productId, ms[i], TierMax(At(maxs, i)), At(prices, i).text);
          }
          if exists i :: 0 <= i < |ms| && ms[i] != "" && Truthy(At(prices, i))
                         && t == Tier(productId, ms[i], TierMax(At(maxs, i)), At(prices, i).text) {
            var i :| 0 <= i < |ms| && ms[i] != "" && Truthy(At(prices, i))
                     && t == Tier(productId, ms[i], TierMax(At(maxs, i)), At(prices, i).text);
            assert !step(i).Throw?;
            assert step(i) == Emit(t);
          }
        }
        forall k | 0 <= k <= |ms| ensures Collect(k, step).rows <= Collect(|ms|, step).rows {
          CollectPrefix(k, |ms|, step);
        }
      }
    }
  }

  /**
   * A tier row needs only a minimum and a price: with the three lists filled in side by
   * side, every row with both becomes a tier in form order, an empty maximum becomes
   * null, and no range is compared with another, so overlapping or inverted ranges are
   * all stored.
   */
  lemma TiersAreNotChecked(productId: int, mins: seq<string>, maxs: seq<string>, prices: seq<string>)
    requires |maxs| == |mins| && |prices| == |mins|
    requires forall i :: 0 <= i < |mins| ==> mins[i] != "" && prices[i] != ""
    ensures var r := TierRows(productId, Many(mins), Many(maxs), Many(prices));
      && !r.failed && |r.rows| == |mins|
      && forall i :: 0 <= i < |mins| ==>
           r.rows[i] == Tier(productId, mins[i], if maxs[i] == "" then None else Some(maxs[i]), prices[i])
  {
    var step := TierStepAt(productId, mins, Many(maxs), Many(prices));
    assert forall i :: 0 <= i < |mins| ==> step(i) == Emit(Tier(productId, mins[i], TierMax(Item(maxs[i])), prices[i]));
    CollectAllEmit(|mins|, step);
  }

  /** The tier loop fails exactly when a row with a minimum and a price meets a missing list. */
  lemma TierRowsFail(productId: int, mins: seq<string>, maxs: FormList, prices: FormList)
    ensures TierRows(productId, Many(mins), maxs, prices).failed <==>
      exists i :: 0 <= i < |mins| && mins[i] != "" && (prices.Absent? || (Truthy(At(prices, i)) && maxs.Absent?))
  {
    var step := TierStepAt(productId, mins, maxs, prices);
    CollectRows(|mins|, step);
    assert forall i :: 0 <= i < |mins| ==>
      (step(i).Throw? <==> mins[i] != "" && (prices.Absent? || (Truthy(At(prices, i)) && maxs.Absent?)));
  }

  // ---------------------------------------------------------------------------
  // Category, brand and slider create (routes/admin.js:392-400, 434-438, 597-606)

  datatype CategoryForm = CategoryForm(name: Option<string>, parentId: Option<string>, description: Option<string>,
                                       icon: Option<string>, order: Option<string>, active: Option<string>)

  datatype CategoryValues = CategoryValues(name: Option<string>, parentId: Option<string>, description: Option<string>,
                                           icon: Option<string>, image: Option<string>, order: string, active: int)

  function CategoryValuesOf(f: CategoryForm, file: Option<string>): CategoryValues
  {
    CategoryValues(f.name, OrNull(f.parentId), f.description, f.icon, FileUrl(Upload.CategoryImages, file),
                   Or(f.order, "0"), Flag(f.active))
  }

  datatype BrandForm = BrandForm(name: Option<string>, active: Option<string>)

  datatype BrandValues = BrandValues(name: Option<string>, logo: Option<string>, active: int)

  function BrandValuesOf(f: BrandForm, file: Option<string>): BrandValues
  {
    BrandValues(f.name, FileUrl(Upload.BrandLogos, file), Flag(f.active))
  }

  datatype SliderForm = SliderForm(title: Option<string>, subtitle: Option<string>, description: Option<string>,
                                   link: Option<string>, buttonText: Option<string>, order: Option<string>,
                                   active: Option<string>)

  datatype SliderValues = SliderValues(title: Option<string>, subtitle: Option<string>, description: Option<string>,
                                       image: Option<string>, link: Option<string>, buttonText: string,
                                       order: string, active: int)

  function SliderValuesOf(f: SliderForm, file: Option<string>): SliderValues
  {
    SliderValues(f.title, f.subtitle, f.description, FileUrl(Upload.SliderImages, file), f.link,
                 Or(f.buttonText, "Keşfet"), Or(f.order, "0"), Flag(f.active))
  }

  /**
   * An empty parent is null (a top-level category), an empty order is 0, an empty slider
   * button reads "Keşfet", and without an uploaded file the image or logo is null.
   */
  lemma CategoryBrandSliderDefaults(c: CategoryForm, b: BrandForm, s: SliderForm, file: Option<string>)
    ensures var v := CategoryValuesOf(c, file);
      && (v.parentId.None? <==> !Given(c.parentId))
      && v.order == (if Given(c.order) then c.order.value else "0")
      && (v.active == 1 <==> Given(c.active))
      && (v.image.None? <==> file.None?)
    ensures var v := BrandValuesOf(b, file);
      (v.logo.None? <==> file.None?) && (v.active == 1 <==> Given(b.active))
    ensures var v := SliderValuesOf(s, file);
      && v.buttonText == (if Given(s.buttonText) then s.buttonText.value else "Keşfet")
      && v.order == (if Given(s.order) then s.order.value else "0")
      && (v.active == 1 <==> Given(s.active))
      && (v.image.None? <==> file.None?)
  {
  }

  /*
   * Each recorded image URL points into the directory the upload middleware chose for
   * that admin route, so the stored link names where the file was written.
   */

  lemma CategoryImageUrlMatchesUpload(c: CategoryForm, file: string)
    ensures CategoryValuesOf(c, Some(file)).image
         == Some(Upload.PublicPrefix(Upload.DestinationFor("/admin", "/admin/kategoriler/ekle")) + file)
  {
    Upload.CategoryRoute();
  }

  lemma BrandLogoUrlMatchesUpload(b: BrandForm, file: string)
    ensures BrandValuesOf(b, Some(file)).logo
         == Some(Upload.PublicPrefix(Upload.DestinationFor("/admin", "/admin/markalar/ekle")) + file)
  {
    Upload.BrandRoute();
  }

  lemma SliderImageUrlMatchesUpload(s: SliderForm, file: string)
    ensures SliderValuesOf(s, Some(file)).image
         == Some(Upload.PublicPrefix(Upload.DestinationFor("/admin", "/admin/slider/ekle")) + file)
  {
    Upload.SliderRoute();
  }

  lemma ProductImageUrlsMatchUpload(productId: int, files: seq<string>, base: int, id: string)
    ensures forall i :: 0 <= i < |files| ==>
      ImageRows(productId, files, base)[i].url
        == Upload.PublicPrefix(Upload.DestinationFor("/admin", "/admin/urunler/duzenle/" + id)) + files[i]
  {
    Upload.ProductRoutes(id);
    var rows := ImageRows(productId, files, base);
    forall i | 0 <= i < |files|
      ensures rows[i].url == Upload.PublicPrefix(Upload.ProductImages) + files[i]
    {
      assert rows[i] == Image(productId, Upload.PublicPrefix(Upload.ProductImages) + files[i], base + i);
    }
  }
}
