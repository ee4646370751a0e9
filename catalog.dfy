/**
 * The catalog read path: the `whereConditions` the listing, search and autocomplete
 * handlers build (routes/web.js:113-141,242-265, routes/api.js:17-125), as predicates
 * over a product record; the `order` choices as comparators; the database's ORDER BY
 * as a stable sort; and the product page's view counter and similar-products rule
 * (routes/web.js:183-230). Prices are integer kuruş.
 */
module Catalog {
  import opened Wrappers
  import opened Strings
  import opened Seqs
  import Pagination

  datatype Product = Product(
    id: int,
    categoryId: int,
    brandId: Option<int>,
    partNo: string,
    name: string,
    slug: string,
    description: Option<string>,
    price: nat,
    stock: int,
    packageType: string,
    active: int,
    featured: int,
    views: nat,
    createdAt: int)

  /** `durum: 1`. */
  predicate IsActive(p: Product)
  {
    p.active == 1
  }

  /** `LIKE '%q%'`, case-insensitive for ASCII letters. */
  predicate Like(field: string, q: string)
  {
    Contains(Lower(field), Lower(q))
  }

  /** The first `n` rows (LIMIT n). */
  function Take(rows: seq<Product>, n: nat): (r: seq<Product>)
    ensures |r| == if |rows| <= n then |rows| else n
    ensures r == rows[..|r|]
  {
    if |rows| <= n then rows else rows[..n]
  }

  // ---------------------------------------------------------------------------
  // Sorting

  datatype SortKey = Newest | PriceAscending | PriceDescending | NameAscending | MostViewed

  /** The `siralama` mapping of the category listing and the product API (routes/web.js:138-141). */
  function ListingSort(siralama: string): (k: SortKey)
    ensures siralama == "fiyat-artan" <==> k == PriceAscending
    ensures siralama == "fiyat-azalan" <==> k == PriceDescending
    ensures siralama == "ad" <==> k == NameAscending
    ensures k != MostViewed
  {
    if siralama == "fiyat-artan" then PriceAscending
    else if siralama == "fiyat-azalan" then PriceDescending
    else if siralama == "ad" then NameAscending
    else Newest
  }

  /** The `siralama` mapping of search, whose default is relevance: most viewed first (routes/web.js:262-265). */
  function SearchSort(siralama: string): (k: SortKey)
    ensures siralama == "fiyat-artan" <==> k == PriceAscending
    ensures siralama == "fiyat-azalan" <==> k == PriceDescending
    ensures siralama == "yeni" <==> k == Newest
    ensures k != NameAscending
  {
    if siralama == "fiyat-artan" then PriceAscending
    else if siralama == "fiyat-azalan" then PriceDescending
    else if siralama == "yeni" then Newest
    else MostViewed
  }

  /** Lexicographic order on strings, by code point. */
  predicate NameLe(a: string, b: string)
  {
    if a == [] then true
    else if b == [] then false
    else if a[0] != b[0] then a[0] < b[0]
    else NameLe(a[1..], b[1..])
  }

  lemma {:induction false} NameLeTotal(a: string, b: string)
    ensures NameLe(a, b) || NameLe(b, a)
  {
    if a != [] && b != [] && a[0] == b[0] {
      NameLeTotal(a[1..], b[1..]);
    }
  }

  lemma {:induction false} NameLeTransitive(a: string, b: string, c: string)
    requires NameLe(a, b) && NameLe(b, c)
    ensures NameLe(a, c)
  {
    if a != [] && b != [] && c != [] && a[0] == b[0] && b[0] == c[0] {
      NameLeTransitive(a[1..], b[1..], c[1..]);
    }
  }

  /**
   * `a` may stand before `b` under ORDER BY `key`. Names compare under the column's
   * case-insensitive collation: ASCII letters are folded to lower case first.
   */
  predicate Precedes(key: SortKey, a: Product, b: Product)
  {
    match key
    case Newest => a.createdAt >= b.createdAt
    case PriceAscending => a.price <= b.price
    case PriceDescending => a.price >= b.price
    case NameAscending => NameLe(Lower(a.name), Lower(b.name))
    case MostViewed => a.views >= b.views
  }

  /** Every key orders all products: a total preorder. */
  lemma PrecedesTotalPreorder(key: SortKey, a: Product, b: Product, c: Product)
    ensures Precedes(key, a, b) || Precedes(key, b, a)
    ensures Precedes(key, a, b) && Precedes(key, b, c) ==> Precedes(key, a, c)
  {
    if key == NameAscending {
      NameLeTotal(Lower(a.name), Lower(b.name));
      if NameLe(Lower(a.name), Lower(b.name)) && NameLe(Lower(b.name), Lower(c.name)) {
        NameLeTransitive(Lower(a.name), Lower(b.name), Lower(c.name));
      }
    }
  }

  lemma LowerArduino()
    ensures Lower("arduino") == "arduino"
  {
    LowerKeepsLowercase("arduino");
  }

  lemma LowerLed()
    ensures Lower("LED") == "led"
  {
    var r := Lower("LED");
    assert r[0] == LowerChar('L') == 'l';
    assert r[1] == LowerChar('E') == 'e';
    assert r[2] == LowerChar('D') == 'd';
  }

  /**
   * ORDER BY ad ignores case: "arduino" comes before "LED", although by code point
   * alone, where 'L' is smaller than 'a', the order would be the other way round.
   */
  lemma NameOrderIgnoresCase(a: Product, b: Product)
    requires a.name == "arduino" && b.name == "LED"
    ensures Precedes(NameAscending, a, b) && !Precedes(NameAscending, b, a)
    ensures NameLe(b.name, a.name) && !NameLe(a.name, b.name)
  {
    LowerArduino();
    LowerLed();
    assert "arduino"[0] == 'a' && "led"[0] == 'l';
    assert "LED"[0] == 'L';
  }

  predicate Sorted(key: SortKey, rows: seq<Product>)
  {
    forall i :: 0 < i < |rows| ==> Precedes(key, rows[i - 1], rows[i])
  }

  lemma SortedTail(key: SortKey, rows: seq<Product>)
    requires Sorted(key, rows) && rows != []
    ensures Sorted(key, rows[1..])
  {
    forall i | 0 < i < |rows| - 1
      ensures Precedes(key, rows[1..][i - 1], rows[1..][i])
    {
      assert rows[1..][i - 1] == rows[i] && rows[1..][i] == rows[i + 1];
    }
  }

  lemma ConsSorted(key: SortKey, a: Product, t: seq<Product>)
    requires Sorted(key, t) && (t != [] ==> Precedes(key, a, t[0]))
    ensures Sorted(key, [a] + t)
  {
    var r := [a] + t;
    forall i | 1 < i < |r|
      ensures Precedes(key, r[i - 1], r[i])
    {
      assert r[i - 1] == t[i - 2] && r[i] == t[i - 1];
    }
  }

  function Insert(key: SortKey, x: Product, rows: seq<Product>): (r: seq<Product>)
    requires Sorted(key, rows)
    ensures Sorted(key, r) && multiset(r) == multiset(rows) + multiset{x}
    ensures r != [] && (r[0] == x || (rows != [] && r[0] == rows[0]))
  {
    if rows == [] || Precedes(key, x, rows[0]) then
      ConsSorted(key, x, rows);
      [x] + rows
    else
      PrecedesTotalPreorder(key, x, rows[0], x);
      assert rows == [rows[0]] + rows[1..];
      SortedTail(key, rows);
      var t := Insert(key, x, rows[1..]);
      assert Precedes(key, rows[0], t[0]);
      ConsSorted(key, rows[0], t);
      [rows[0]] + t
  }

  /** ORDER BY `key`: a stable sort of the selected rows. */
  function SortBy(key: SortKey, rows: seq<Product>): (r: seq<Product>)
    ensures Sorted(key, r) && multiset(r) == multiset(rows) && |r| == |rows|
  {
    if rows == [] then []
    else
      assert rows == [rows[0]] + rows[1..];
      Insert(key, rows[0], SortBy(key, rows[1..]))
  }

  /** In a sorted listing every earlier row may precede every later one, not only its neighbour. */
  lemma {:induction false} SortedPairwise(key: SortKey, rows: seq<Product>, i: int, j: int)
    requires Sorted(key, rows) && 0 <= i < j < |rows|
    ensures Precedes(key, rows[i], rows[j])
    decreases j - i
  {
    if j > i + 1 {
      SortedPairwise(key, rows, i, j - 1);
      PrecedesTotalPreorder(key, rows[i], rows[j - 1], rows[j]);
    }
  }

  // ---------------------------------------------------------------------------
  // Category listing: GET /kategori/:slug

  /** The optional query filters; `None` is a parameter that is absent or empty. */
  datatype ListingFilters = ListingFilters(
    brands: Option<seq<int>>,
    priceMin: Option<int>,
    priceMax: Option<int>,
    packages: Option<seq<string>>,
    stock: Option<string>)

  /**
   * `paket_tipi IN (...)` on the ENUM column, compared under the case-insensitive
   * collation: the stored type matches a sent one in any letter case.
   */
  predicate PackageSelected(t: string, sent: seq<string>)
  {
    exists k :: 0 <= k < |sent| && Lower(t) == Lower(sent[k])
  }

  /** The `whereConditions` of the category listing (routes/web.js:114-135). */
  predicate InCategoryListing(p: Product, categoryId: int, f: ListingFilters)
  {
    && p.categoryId == categoryId && IsActive(p)
    && (f.brands.Some? ==> p.brandId.Some? && p.brandId.value in f.brands.value)
    && (f.priceMin.Some? ==> f.priceMin.value <= p.price)
    && (f.priceMax.Some? ==> p.price <= f.priceMax.value)
    && (f.packages.Some? ==> PackageSelected(p.packageType, f.packages.value))
    && (f.stock == Some("1") ==> p.stock > 0)
  }

  /**
   * The listing always keeps to the category and to active products; the stock filter
   * applies only for `stok=1` and then demands stock above zero; price bounds are inclusive
   * and each applies only when given.
   */
  lemma CategoryListingRules(p: Product, categoryId: int, f: ListingFilters)
    ensures InCategoryListing(p, categoryId, f) ==> p.categoryId == categoryId && IsActive(p)
    ensures f.stock != Some("1") ==>
      (InCategoryListing(p, categoryId, f) <==> InCategoryListing(p, categoryId, f.(stock := None)))
    ensures f.stock == Some("1") ==>
      (InCategoryListing(p, categoryId, f) <==> InCategoryListing(p, categoryId, f.(stock := None)) && p.stock > 0)
    ensures f.priceMin == Some(p.price) && f.priceMax == Some(p.price) ==>
      (InCategoryListing(p, categoryId, f) <==> InCategoryListing(p, categoryId, f.(priceMin := None, priceMax := None)))
    ensures f.packages.Some? && p.packageType in f.packages.value ==>
      (InCategoryListing(p, categoryId, f) <==> InCategoryListing(p, categoryId, f.(packages := None)))
    ensures f.packages.Some? && InCategoryListing(p, categoryId, f) ==>
      exists k :: 0 <= k < |f.packages.value| && Lower(p.packageType) == Lower(f.packages.value[k])
  {
    if f.packages.Some? && p.packageType in f.packages.value {
      var k :| 0 <= k < |f.packages.value| && f.packages.value[k] == p.packageType;
      assert Lower(p.packageType) == Lower(f.packages.value[k]);
    }
  }

  lemma LowerSmd()
    ensures Lower("SMD") == "smd" && Lower("smd") == "smd"
  {
    LowerKeepsLowercase("smd");
    var r := Lower("SMD");
    assert r[0] == LowerChar('S') == 's';
    assert r[1] == LowerChar('M') == 'm';
    assert r[2] == LowerChar('D') == 'd';
  }

  /** `?paket_tipi=smd` lists the SMD parts: the IN comparison ignores case. */
  lemma LowerCasePackageSelects(p: Product, categoryId: int, f: ListingFilters)
    requires p.packageType == "SMD" && f.packages == Some(["smd"])
    ensures InCategoryListing(p, categoryId, f) <==> InCategoryListing(p, categoryId, f.(packages := None))
  {
    LowerSmd();
    assert Lower(p.packageType) == Lower(f.packages.value[0]);
  }

  datatype Listing = Listing(rows: seq<Product>, total: nat, page: int, pages: nat)

  /**
   * One page of a listing: the rows `keep` accepts, ordered by `key`, at the page's
   * offset; `None` when the page number gives a negative offset.
   */
  function ListPage(products: seq<Product>, keep: Product -> bool, key: SortKey, page: int, size: nat): (r: Option<Listing>)
    requires size > 0
    ensures r.Some? <==> page >= 1
    ensures r.Some? ==>
      && r.value.total == |Filter(products, keep)|
      && r.value.page == page
      && r.value.pages == Pagination.TotalPages(r.value.total, size)
      && Some(r.value.rows) == Pagination.PageOf(SortBy(key, Filter(products, keep)), page, size)
      && |r.value.rows| <= size
      && Sorted(key, r.value.rows)
      && forall q :: q in r.value.rows ==> q in products && keep(q)
  {
    var selected := Filter(products, keep);
    var matching := SortBy(key, selected);
    var off := Pagination.Offset(page, size);
    if page < 1 then None
    else
      assert off >= 0 by { NonNegativeOffset(page, size); }
      var rows := Pagination.Window(matching, off, size);
      WindowKeepsOrder(key, matching, off, size);
      WindowKeepsRows(selected, matching, off, size);
      Some(Listing(rows, |matching|, page, Pagination.TotalPages(|matching|, size)))
  }

  /**
   * The `k`-th row of the ordered matches is row `k % size` of page `k / size + 1`, and
   * that page is within the page count.
   */
  lemma ListPageRow(products: seq<Product>, keep: Product -> bool, key: SortKey, size: nat, k: nat)
    requires size > 0 && k < |Filter(products, keep)|
    ensures var r := ListPage(products, keep, key, k / size + 1, size);
      && r.Some? && r.value.page <= r.value.pages
      && k % size < |r.value.rows| && r.value.rows[k % size] == SortBy(key, Filter(products, keep))[k]
  {
    var matching := SortBy(key, Filter(products, keep));
    Pagination.RowOnItsPage(matching, size, k);
    Pagination.EveryRowOnItsPage(|matching|, size, k);
  }

  /**
   * Page `page` of a listing holds the ordered matches from position (page - 1) * size on:
   * `size` of them, or the rest at the end.
   */
  lemma ListPageContents(products: seq<Product>, keep: Product -> bool, key: SortKey, page: int, size: nat)
    requires size > 0 && page >= 1
    ensures var r := ListPage(products, keep, key, page, size);
      var matching := SortBy(key, Filter(products, keep));
      && r.Some?
      && (forall i :: 0 <= i < |r.value.rows| ==>
            (page - 1) * size + i < |matching| && r.value.rows[i] == matching[(page - 1) * size + i])
      && ((page - 1) * size <= |matching| ==>
            |r.value.rows| == if page * size <= |matching| then size else |matching| - (page - 1) * size)
  {
    var r := ListPage(products, keep, key, page, size);
    assert Some(r.value.rows) == Pagination.PageOf(SortBy(key, Filter(products, keep)), page, size);
    assert Pagination.Offset(page, size) == (page - 1) * size;
  }

  lemma NonNegativeOffset(page: int, size: nat)
    requires page >= 1
    ensures Pagination.Offset(page, size) >= 0
  {
  }

  /** A page cut out of a sorted result is sorted. */
  lemma WindowKeepsOrder(key: SortKey, rows: seq<Product>, off: nat, size: nat)
    requires Sorted(key, rows)
    ensures Sorted(key, Pagination.Window(rows, off, size))
  {
    var w := Pagination.Window(rows, off, size);
    forall i | 0 < i < |w| ensures Precedes(key, w[i - 1], w[i]) {
      assert w[i - 1] == rows[off + i - 1] && w[i] == rows[off + i];
    }
  }

  /** A page of a sorted permutation of `selected` holds only rows of `selected`. */
  lemma WindowKeepsRows(selected: seq<Product>, rows: seq<Product>, off: nat, size: nat)
    requires multiset(rows) == multiset(selected)
    ensures forall q :: q in Pagination.Window(rows, off, size) ==> q in selected
  {
    var w := Pagination.Window(rows, off, size);
    forall q | q in w ensures q in selected {
      var i :| 0 <= i < |w| && w[i] == q;
      assert q in multiset(rows);
    }
  }

  function CategoryKeep(categoryId: int, f: ListingFilters): Product -> bool
  {
    p => InCategoryListing(p, categoryId, f)
  }

  /** GET /kategori/:slug for a category found with id `categoryId`. */
  function CategoryPage(products: seq<Product>, categoryId: int, f: ListingFilters, siralama: string, page: int): Option<Listing>
  {
    ListPage(products, CategoryKeep(categoryId, f), ListingSort(siralama), page, Pagination.StorePageSize)
  }

  /**
   * The category page lists only that category's active products, sorted as asked, at most
   * 12: page `page` holds the matches from position (page - 1) * 12 on, and counts them all.
   */
  lemma CategoryPageRules(products: seq<Product>, categoryId: int, f: ListingFilters, siralama: string, page: int)
    requires page >= 1
    ensures var r := CategoryPage(products, categoryId, f, siralama, page);
      var matching := SortBy(ListingSort(siralama), Filter(products, CategoryKeep(categoryId, f)));
      && r.Some? && |r.value.rows| <= 12 && Sorted(ListingSort(siralama), r.value.rows)
      && r.value.total == |matching|
      && r.value.pages == Pagination.TotalPages(|matching|, 12)
      && (forall i :: 0 <= i < |r.value.rows| ==>
            (page - 1) * 12 + i < |matching| && r.value.rows[i] == matching[(page - 1) * 12 + i])
      && ((page - 1) * 12 <= |matching| ==>
            |r.value.rows| == if page * 12 <= |matching| then 12 else |matching| - (page - 1) * 12)
      && forall q :: q in r.value.rows ==> q in products && q.categoryId == categoryId && IsActive(q)
  {
    ListPageContents(products, CategoryKeep(categoryId, f), ListingSort(siralama), page, 12);
  }

  // ---------------------------------------------------------------------------
  // Product API: GET /api/urunler

  datatype ApiQuery = ApiQuery(
    category: Option<int>,
    brands: Option<seq<int>>,
    q: string,
    priceMin: Option<int>,
    priceMax: Option<int>,
    stock: Option<string>)

  /** The `whereConditions` of the product API (routes/api.js:25-40); an empty `q` adds no text filter. */
  predicate InApiListing(p: Product, a: ApiQuery)
  {
    && IsActive(p)
    && (a.category.Some? ==> p.categoryId == a.category.value)
    && (a.brands.Some? ==> p.brandId.Some? && p.brandId.value in a.brands.value)
    && (a.q != "" ==> Like(p.name, a.q) || Like(p.partNo, a.q))
    && (a.priceMin.Some? ==> a.priceMin.value <= p.price)
    && (a.priceMax.Some? ==> p.price <= a.priceMax.value)
    && (a.stock == Some("1") ==> p.stock > 0)
  }

  function ApiKeep(a: ApiQuery): Product -> bool
  {
    p => InApiListing(p, a)
  }

  /** The `data` of the answer; `toplamSayfa` is `None` where JSON shows `null` (Infinity or NaN). */
  datatype ApiPage = ApiPage(rows: seq<Product>, total: nat, page: int, pages: Option<nat>)

  /**
   * GET /api/urunler with `limit` already parsed. A negative LIMIT, or a negative OFFSET
   * from a page below 1, is refused by the database (`None`). A zero limit gives the
   * offset 0 whatever the page, no rows, and `Math.ceil(count / 0)`, which JSON shows as null.
   */
  function ApiList(products: seq<Product>, a: ApiQuery, siralama: string, page: int, limit: int): Option<ApiPage>
  {
    if limit < 0 then None
    else if limit == 0 then Some(ApiPage([], |Filter(products, ApiKeep(a))|, page, None))
    else
      match ListPage(products, ApiKeep(a), ListingSort(siralama), page, limit)
      case None => None
      case Some(l) => Some(ApiPage(l.rows, l.total, l.page, Some(l.pages)))
  }

  /**
   * The product API lists only active products that pass every supplied filter, in the
   * `siralama` order: page `page` holds the matches from position (page - 1) * limit on.
   * A zero limit lists nothing and has no page count; a negative one is an error.
   */
  lemma ApiListRules(products: seq<Product>, a: ApiQuery, siralama: string, page: int, limit: int)
    ensures limit < 0 ==> ApiList(products, a, siralama, page, limit).None?
    ensures limit == 0 ==>
      ApiList(products, a, siralama, page, limit) == Some(ApiPage([], |Filter(products, ApiKeep(a))|, page, None))
    ensures limit > 0 ==> (ApiList(products, a, siralama, page, limit).Some? <==> page >= 1)
    ensures limit > 0 && page >= 1 ==>
      ApiPageShows(products, a, siralama, page, limit, ApiList(products, a, siralama, page, limit).value)
  {
    if limit > 0 && page >= 1 {
      var r := ApiList(products, a, siralama, page, limit);
      var l := ListPage(products, ApiKeep(a), ListingSort(siralama), page, limit);
      assert l.Some? && r.value.rows == l.value.rows;
      forall q | q in r.value.rows
        ensures q in products && InApiListing(q, a)
      {
        assert ApiKeep(a)(q);
      }
    }
  }

  /**
   * What a page of a positive limit shows: the count of the API's matches, the page count,
   * at most `limit` rows in `siralama` order, which are the sorted matches from
   * (page - 1) * limit on, each one a listed product passing every filter.
   */
  predicate ApiPageShows(products: seq<Product>, a: ApiQuery, siralama: string, page: int, limit: int, r: ApiPage)
    requires limit > 0 && page >= 1
  {
    var matching := SortBy(ListingSort(siralama), Filter(products, ApiKeep(a)));
    && r.total == |matching|
    && r.pages == Some(Pagination.TotalPages(|matching|, limit))
    && |r.rows| <= limit
    && Sorted(ListingSort(siralama), r.rows)
    && (forall i :: 0 <= i < |r.rows| ==>
          (page - 1) * limit + i < |matching| && r.rows[i] == matching[(page - 1) * limit + i])
    && forall q :: q in r.rows ==> q in products && InApiListing(q, a)
  }

  // ---------------------------------------------------------------------------
  // Search: GET /ara and the autocomplete API

  /** `!q || q.trim().length < 2`: search answers with no query at all (routes/web.js:242). */
  predicate SearchSkipped(q: Option<string>)
  {
    q.None? || |Trim(q.value)| < 2
  }

  /** `!q || q.length < 2`: the autocomplete guard, which does not trim (routes/api.js:103). */
  predicate AutocompleteSkipped(q: Option<string>)
  {
    q.None? || |q.value| < 2
  }

  /** Search matches the untrimmed text in the name, the part number or the description. */
  predicate SearchMatches(p: Product, q: string)
  {
    IsActive(p) && (Like(p.name, q) || Like(p.partNo, q) || (p.description.Some? && Like(p.description.value, q)))
  }

  datatype SearchPage = SearchPage(rows: seq<Product>, term: string, total: nat, page: int, pages: nat)

  function SearchKeep(q: string): Product -> bool
  {
    p => SearchMatches(p, q)
  }

  /** GET /ara; `None` is a page number whose offset the database refuses. */
  function Search(products: seq<Product>, q: Option<string>, siralama: string, page: int): (r: Option<SearchPage>)
    ensures SearchSkipped(q) ==> r == Some(SearchPage([], q.GetOr(""), 0, 1, 0))
    ensures !SearchSkipped(q) && page < 1 ==> r.None?
    ensures !SearchSkipped(q) && page >= 1 ==>
      var matching := SortBy(SearchSort(siralama), Filter(products, SearchKeep(q.value)));
      && r.Some?
      && r.value.term == q.value
      && r.value.page == page
      && r.value.total == |matching|
      && r.value.pages == Pagination.TotalPages(r.value.total, 12)
      && |r.value.rows| <= 12
      && Sorted(SearchSort(siralama), r.value.rows)
      && (forall i :: 0 <= i < |r.value.rows| ==>
            (page - 1) * 12 + i < |matching| && r.value.rows[i] == matching[(page - 1) * 12 + i])
      && ((page - 1) * 12 <= |matching| ==>
            |r.value.rows| == if page * 12 <= |matching| then 12 else |matching| - (page - 1) * 12)
      && forall p :: p in r.value.rows ==> p in products && SearchMatches(p, q.value)
  {
    if SearchSkipped(q) then Some(SearchPage([], q.GetOr(""), 0, 1, 0))
    else
      match ListPage(products, SearchKeep(q.value), SearchSort(siralama), page, Pagination.StorePageSize)
      case None => None
      case Some(l) => Some(SearchPage(l.rows, q.value, l.total, l.page, l.pages))
  }

  /** An autocomplete hit: active, with the text in the name or the part number. */
  predicate AutocompleteMatches(p: Product, q: string)
  {
    IsActive(p) && (Like(p.name, q) || Like(p.partNo, q))
  }

  function AutocompleteKeep(q: string): Product -> bool
  {
    p => AutocompleteMatches(p, q)
  }

  /**
   * GET /api/urunler/ara/autocomplete: nothing for a missing or one-character query;
   * otherwise the first 8 matches (the query has no ORDER BY; the model reads the
   * table in its order), all of them when there are fewer.
   */
  function Autocomplete(products: seq<Product>, q: Option<string>): (r: seq<Product>)
    ensures AutocompleteSkipped(q) ==> r == []
    ensures |r| <= 8
    ensures forall p :: p in r ==> p in products && AutocompleteMatches(p, q.value)
    ensures !AutocompleteSkipped(q) ==>
      var matching := Filter(products, AutocompleteKeep(q.value));
      && |r| == (if |matching| <= 8 then |matching| else 8)
      && forall i :: 0 <= i < |r| ==> r[i] == matching[i]
    ensures !AutocompleteSkipped(q) && |r| < 8 ==>
      forall p :: p in products && AutocompleteMatches(p, q.value) ==> p in r
  {
    if AutocompleteSkipped(q) then []
    else
      var matching := Filter(products, AutocompleteKeep(q.value));
      var r := Take(matching, 8);
      assert forall p :: p in r ==> p in matching && AutocompleteKeep(q.value)(p);
      r
  }

  /**
   * Search trims before its length check and autocomplete does not: two spaces are
   * looked up by autocomplete and refused by search.
   */
  lemma GuardsDisagreeOnBlankQuery()
    ensures !AutocompleteSkipped(Some("  ")) && SearchSkipped(Some("  "))
  {
    assert Trim("  ") == [] by {
      assert TrimStart("  ") == [];
    }
  }

  // ---------------------------------------------------------------------------
  // Product page: GET /urun/:slug

  /** `Product.findOne({ where: { slug, durum: 1 } })`: the first active product with the slug. */
  function FindBySlug(products: seq<Product>, slug: string): (i: int)
    ensures -1 <= i < |products|
    ensures i >= 0 ==> products[i].slug == slug && IsActive(products[i])
    ensures i >= 0 ==> forall j :: 0 <= j < i ==> !(products[j].slug == slug && IsActive(products[j]))
    ensures i == -1 ==> forall j :: 0 <= j < |products| ==> !(products[j].slug == slug && IsActive(products[j]))
  {
    if products == [] then -1
    else if products[0].slug == slug && IsActive(products[0]) then 0
    else
      var i := FindBySlug(products[1..], slug);
      if i == -1 then -1 else i + 1
  }

  datatype ProductPage = NotFound | Shown(product: Product, similar: seq<Product>)

  /** The similar-products rule: same category, another product, active (routes/web.js:208-219). */
  predicate IsSimilar(p: Product, viewed: Product)
  {
    p.categoryId == viewed.categoryId && p.id != viewed.id && IsActive(p)
  }

  function Similar(products: seq<Product>, viewed: Product): (r: seq<Product>)
    ensures |r| <= 4
    ensures forall p :: p in r ==> p in products && IsSimilar(p, viewed)
    ensures |r| < 4 ==> forall p :: p in products && IsSimilar(p, viewed) ==> p in r
  {
    Take(Filter(products, p => IsSimilar(p, viewed)), 4)
  }

  /**
   * GET /urun/:slug: a found product's view counter goes up by one (`urun.increment`)
   * and the page shows it with its similar products; an unknown or inactive slug is a 404
   * and no counter moves.
   */
  function ShowProduct(products: seq<Product>, slug: string): (r: (ProductPage, seq<Product>))
    ensures |r.1| == |products|
    ensures r.0.NotFound? <==> FindBySlug(products, slug) == -1
    ensures r.0.NotFound? ==> r.1 == products
    ensures r.0.Shown? ==>
      var i := FindBySlug(products, slug);
      && r.0.product == products[i]
      && r.1[i] == products[i].(views := products[i].views + 1)
      && (forall j :: 0 <= j < |products| && j != i ==> r.1[j] == products[j])
      && |r.0.similar| <= 4
      && (forall p :: p in r.0.similar ==> IsSimilar(p, products[i]))
      && r.0.similar == Similar(r.1, products[i])
  {
    var i := FindBySlug(products, slug);
    if i == -1 then (NotFound, products)
    else
      var p := products[i];
      var after := products[i := p.(views := p.views + 1)];
      (Shown(p, Similar(after, p)), after)
  }
}
