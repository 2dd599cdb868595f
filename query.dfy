/**
 * The query engine: `filterAndSortProducts`, `paginateResults` and their
 * composition `fetchProducts`.
 */
module Query {
  import opened Wrappers
  import opened Seqs
  import opened Sorting
  import opened Products

  /**
   * A `categories` or `brands` value: an array of ids, or the comma-joined
   * string the products page sends. An absent value is the empty array.
   */
  datatype NameFilter = NameList(names: seq<string>) | Joined(text: string)

  /** `filters.categories && filters.categories.length > 0`, likewise for brands. */
  predicate IsActive(n: NameFilter)
  {
    match n
    case NameList(names) => |names| > 0
    case Joined(text) => |text| > 0
  }

  /**
   * `filters.categories.includes(value)`: array membership for an array, and
   * `String.prototype.includes`, a substring test, for a joined string.
   */
  predicate Includes(n: NameFilter, value: string)
  {
    match n
    case NameList(names) => value in names
    case Joined(text) => Contains(text, value)
  }

  /**
   * The request a product list page sends. `undefined` bounds, sort key, page
   * and limit are `None`.
   */
  datatype Filters = Filters(
    categories: NameFilter,
    brands: NameFilter,
    priceMin: Option<int>,
    priceMax: Option<int>,
    onSale: bool,
    sortBy: Option<string>,
    page: Option<int>,
    limit: Option<int>)

  datatype SortKey = PriceAsc | PriceDesc | NameAsc | NameDesc | Popular | Newest

  /** The `switch` on `sortBy`: absent, `"newest"` and every unrecognised string leave the order alone. */
  function SortKeyOf(sortBy: Option<string>): (key: SortKey)
    ensures key == Newest <==>
      sortBy.None? || sortBy.value !in {"price_asc", "price_desc", "name_asc", "name_desc", "popular"}
  {
    match sortBy
    case None => Newest
    case Some(s) =>
      if s == "price_asc" then PriceAsc
      else if s == "price_desc" then PriceDesc
      else if s == "name_asc" then NameAsc
      else if s == "name_desc" then NameDesc
      else if s == "popular" then Popular
      else Newest
  }

  /**
   * `a` may stay before `b` under the comparator of `key`; `nameLe(x, y)` stands
   * for `x.localeCompare(y) <= 0`. Under `Newest` every pair compares equal.
   */
  predicate Precedes(key: SortKey, nameLe: (string, string) -> bool, a: Product, b: Product)
  {
    match key
    case PriceAsc => a.price <= b.price
    case PriceDesc => a.price >= b.price
    case NameAsc => nameLe(a.name, b.name)
    case NameDesc => nameLe(b.name, a.name)
    case Popular => a.rating >= b.rating
    case Newest => true
  }

  function KeyOrder(key: SortKey, nameLe: (string, string) -> bool): (Product, Product) -> bool
  {
    (a: Product, b: Product) => Precedes(key, nameLe, a, b)
  }

  /**
   * The comparator `filterAndSortProducts` passes to `sort` for `key`, with `nameCmp(x, y)`
   * for `x.localeCompare(y)`; `Newest` sorts nothing and is given as 0.
   */
  function Comparator(key: SortKey, nameCmp: (string, string) -> int, a: Product, b: Product): int
  {
    match key
    case PriceAsc => a.price - b.price
    case PriceDesc => b.price - a.price
    case NameAsc => nameCmp(a.name, b.name)
    case NameDesc => nameCmp(b.name, a.name)
    case Popular => b.rating - a.rating
    case Newest => 0
  }

  function NameLeOf(nameCmp: (string, string) -> int): (string, string) -> bool
  {
    (x: string, y: string) => nameCmp(x, y) <= 0
  }

  /** `Precedes` is "the comparator `filterAndSortProducts` passes to `sort` returns at most 0" for every key. */
  lemma PrecedesIsComparator(key: SortKey, nameCmp: (string, string) -> int, a: Product, b: Product)
    ensures Precedes(key, NameLeOf(nameCmp), a, b) <==> Comparator(key, nameCmp, a, b) <= 0
  {
  }

  lemma KeyOrderIsTotalPreorder(key: SortKey, nameLe: (string, string) -> bool)
    requires TotalPreorder(nameLe)
    ensures TotalPreorder(KeyOrder(key, nameLe))
  {
  }

  // The four filters. An inactive filter keeps every product.

  predicate CategoryOk(f: Filters, p: Product)
  {
    !IsActive(f.categories) || Includes(f.categories, p.category)
  }

  predicate BrandOk(f: Filters, p: Product)
  {
    !IsActive(f.brands) || Includes(f.brands, p.brand)
  }

  predicate PriceOk(f: Filters, p: Product)
  {
    f.priceMin.None? || f.priceMax.None? || (f.priceMin.value <= p.price && p.price <= f.priceMax.value)
  }

  predicate SaleOk(f: Filters, p: Product)
  {
    !f.onSale || p.discount > 0
  }

  predicate Matches(f: Filters, p: Product)
  {
    CategoryOk(f, p) && BrandOk(f, p) && PriceOk(f, p) && SaleOk(f, p)
  }

  function MatchesOf(f: Filters): Product -> bool
  {
    p => Matches(f, p)
  }

  /** The products that pass every active filter, in catalog order. */
  function Selected(products: seq<Product>, f: Filters): (r: seq<Product>)
    ensures |r| <= |products|
    ensures forall k :: 0 <= k < |r| ==> r[k] in products && Matches(f, r[k])
    ensures forall k :: 0 <= k < |products| && Matches(f, products[k]) ==> products[k] in r
  {
    Filter(products, MatchesOf(f))
  }

  /**
   * Filtering is exact: every product that passes every active filter is kept
   * as often as it occurs, no other product is kept, and the order is the input's.
   */
  lemma SelectionIsExact(products: seq<Product>, f: Filters)
    ensures forall p :: multiset(Selected(products, f))[p] == if Matches(f, p) then multiset(products)[p] else 0
    ensures IsSubsequence(Selected(products, f), products)
  {
    forall p
      ensures multiset(Selected(products, f))[p] == if Matches(f, p) then multiset(products)[p] else 0
    {
      FilterMultiset(products, MatchesOf(f), p);
    }
    FilterIsSubsequence(products, MatchesOf(f));
  }

  // The predicates `filterAndSortProducts` passes to `filter`, one per filter.

  function InCategories(f: Filters): Product -> bool
  {
    (p: Product) => Includes(f.categories, p.category)
  }

  function InBrands(f: Filters): Product -> bool
  {
    (p: Product) => Includes(f.brands, p.brand)
  }

  function InPriceRange(f: Filters): Product -> bool
    requires f.priceMin.Some? && f.priceMax.Some?
  {
    (p: Product) => p.price >= f.priceMin.value && p.price <= f.priceMax.value
  }

  function OnSale(): Product -> bool
  {
    (p: Product) => p.discount > 0
  }

  /** One filter step of the pipeline: `active` says whether `filterAndSortProducts` runs `filter` with `inline`. */
  lemma FilterStep(source: seq<Product>, before: seq<Product>, after: seq<Product>, active: bool,
                   inline: Product -> bool, ok: Product -> bool, sofar: Product -> bool, both: Product -> bool)
    requires before == Filter(source, sofar)
    requires after == if active then Filter(before, inline) else before
    requires forall p :: active ==> ok(p) == inline(p)
    requires forall p :: !active ==> ok(p)
    requires forall p :: both(p) == (sofar(p) && ok(p))
    ensures after == Filter(source, both)
  {
    if active {
      FilterAgree(before, inline, ok);
    } else {
      FilterKeepsAll(before, ok);
    }
    FilterFilter(source, sofar, ok, both);
  }

  function CategoryAndBrandOk(f: Filters): Product -> bool
  {
    (p: Product) => CategoryOk(f, p) && BrandOk(f, p)
  }

  /** The category and brand filters, applied in the order `filterAndSortProducts` runs them, keep the products passing both. */
  lemma NameFilterSteps(source: seq<Product>, f: Filters, s1: seq<Product>, s2: seq<Product>)
    requires s1 == if IsActive(f.categories) then Filter(source, InCategories(f)) else source
    requires s2 == if IsActive(f.brands) then Filter(s1, InBrands(f)) else s1
    ensures s2 == Filter(source, CategoryAndBrandOk(f))
  {
    var c: Product -> bool := p => CategoryOk(f, p);
    var always: Product -> bool := p => true;
    FilterKeepsAll(source, always);
    FilterStep(source, source, s1, IsActive(f.categories), InCategories(f), c, always, c);
    FilterStep(source, s1, s2, IsActive(f.brands), InBrands(f), p => BrandOk(f, p), c, CategoryAndBrandOk(f));
  }

  /** The four optional filters, applied in the order `filterAndSortProducts` runs them, keep exactly the `Selected` products. */
  lemma FilterPipeline(source: seq<Product>, f: Filters, s1: seq<Product>, s2: seq<Product>, s3: seq<Product>, s4: seq<Product>)
    requires s1 == if IsActive(f.categories) then Filter(source, InCategories(f)) else source
    requires s2 == if IsActive(f.brands) then Filter(s1, InBrands(f)) else s1
    requires s3 == if f.priceMin.Some? && f.priceMax.Some? then Filter(s2, InPriceRange(f)) else s2
    requires s4 == if f.onSale then Filter(s3, OnSale()) else s3
    ensures s4 == Selected(source, f)
  {
    var cb := CategoryAndBrandOk(f);
    var cbp: Product -> bool := p => CategoryOk(f, p) && BrandOk(f, p) && PriceOk(f, p);
    NameFilterSteps(source, f, s1, s2);
    var always: Product -> bool := p => true;
    var price := if f.priceMin.Some? && f.priceMax.Some? then InPriceRange(f) else always;
    FilterStep(source, s2, s3, f.priceMin.Some? && f.priceMax.Some?, price, p => PriceOk(f, p), cb, cbp);
    FilterStep(source, s3, s4, f.onSale, OnSale(), p => SaleOk(f, p), cbp, MatchesOf(f));
  }

  /** What being in order under each sort key means for prices, names and ratings. */
  lemma OrderedByKey(key: SortKey, nameLe: (string, string) -> bool, r: seq<Product>)
    requires Ordered(KeyOrder(key, nameLe), r)
    ensures key == PriceAsc ==> forall i, j :: 0 <= i < j < |r| ==> r[i].price <= r[j].price
    ensures key == PriceDesc ==> forall i, j :: 0 <= i < j < |r| ==> r[i].price >= r[j].price
    ensures key == NameAsc ==> forall i, j :: 0 <= i < j < |r| ==> nameLe(r[i].name, r[j].name)
    ensures key == NameDesc ==> forall i, j :: 0 <= i < j < |r| ==> nameLe(r[j].name, r[i].name)
    ensures key == Popular ==> forall i, j :: 0 <= i < j < |r| ==> r[i].rating >= r[j].rating
  {
    forall i, j | 0 <= i < j < |r|
      ensures Precedes(key, nameLe, r[i], r[j])
    {
      assert KeyOrder(key, nameLe)(r[i], r[j]);
    }
  }

  /**
   * What being in order under the key `sortBy` selects means, stated for each
   * string the `switch` in `filterAndSortProducts` recognises.
   */
  lemma OrderOfSortBy(f: Filters, nameLe: (string, string) -> bool, r: seq<Product>)
    requires Ordered(KeyOrder(SortKeyOf(f.sortBy), nameLe), r)
    ensures f.sortBy == Some("price_asc") ==> forall i, j :: 0 <= i < j < |r| ==> r[i].price <= r[j].price
    ensures f.sortBy == Some("price_desc") ==> forall i, j :: 0 <= i < j < |r| ==> r[i].price >= r[j].price
    ensures f.sortBy == Some("name_asc") ==> forall i, j :: 0 <= i < j < |r| ==> nameLe(r[i].name, r[j].name)
    ensures f.sortBy == Some("name_desc") ==> forall i, j :: 0 <= i < j < |r| ==> nameLe(r[j].name, r[i].name)
    ensures f.sortBy == Some("popular") ==> forall i, j :: 0 <= i < j < |r| ==> r[i].rating >= r[j].rating
  {
    OrderedByKey(SortKeyOf(f.sortBy), nameLe, r);
  }

  /**
   * The filtering half of `filterAndSortProducts`: each active filter replaces
   * the working list by the list of its elements that pass.
   */
  method ApplyFilters(products: seq<Product>, f: Filters) returns (filtered: seq<Product>)
    ensures filtered == Selected(products, f)
  {
    filtered := products;
    if IsActive(f.categories) {
      filtered := Filter(filtered, InCategories(f));
    }
    ghost var s1 := filtered;
    if IsActive(f.brands) {
      filtered := Filter(filtered, InBrands(f));
    }
    ghost var s2 := filtered;
    if f.priceMin.Some? && f.priceMax.Some? {
      filtered := Filter(filtered, InPriceRange(f));
    }
    ghost var s3 := filtered;
    if f.onSale {
      filtered := Filter(filtered, OnSale());
    }
    FilterPipeline(products, f, s1, s2, s3, filtered);
  }

  /**
   * The sorting half of `filterAndSortProducts`: sort a fresh array holding
   * `s` in place with the stable sort; `newest` and unknown keys skip the sort.
   */
  method SortedCopy(s: seq<Product>, key: SortKey, nameLe: (string, string) -> bool)
    returns (r: seq<Product>)
    requires TotalPreorder(nameLe)
    ensures StablySorted(KeyOrder(key, nameLe), r, s)
    ensures multiset(r) == multiset(s)
    ensures key == Newest ==> r == s
  {
    KeyOrderIsTotalPreorder(key, nameLe);
    if key != Newest {
      var a := new Product[|s|](i requires 0 <= i < |s| => s[i]);
      assert a[..] == s;
      InsertionSort(a, KeyOrder(key, nameLe));
      r := a[..];
    } else {
      r := s;
      assert Ordered(KeyOrder(key, nameLe), r);
    }
    ClassesGivePermutation(KeyOrder(key, nameLe), r, s);
  }

  /**
   * `filterAndSortProducts`: filter a copy of the caller's array, then sort the
   * result in place by the requested key with a stable sort. The caller's array
   * is in no frame, so it is unchanged.
   */
  method FilterAndSortProducts(products: array<Product>, f: Filters, nameLe: (string, string) -> bool)
    returns (r: seq<Product>)
    requires TotalPreorder(nameLe)
    ensures StablySorted(KeyOrder(SortKeyOf(f.sortBy), nameLe), r, Selected(products[..], f))
    ensures multiset(r) == multiset(Selected(products[..], f))
    ensures SortKeyOf(f.sortBy) == Newest ==> r == Selected(products[..], f)
  {
    var filtered := ApplyFilters(products[..], f);
    r := SortedCopy(filtered, SortKeyOf(f.sortBy), nameLe);
  }

  /** What `paginateResults` returns. */
  datatype PageResult = PageResult(items: seq<Product>, page: int, limit: int, totalItems: nat, totalPages: PageCount)

  /** A JavaScript number that `Math.ceil(n / limit)` can produce for an integer `limit`. */
  datatype PageCount = Finite(count: int) | Infinite | NotANumber

  const DefaultPage: int := 1
  const DefaultLimit: int := 12

  /** `Math.ceil(n / d)`. */
  function CeilDiv(n: nat, d: nat): (q: nat)
    requires d >= 1
    ensures n <= q * d
    ensures n == 0 <==> q == 0
    ensures q > 0 ==> (q - 1) * d < n
  {
    var q := (n + d - 1) / d;
    assert q * d + (n + d - 1) % d == n + d - 1;
    q
  }

  /**
   * `Math.ceil(n / limit)`: the page count for a positive `limit`; dividing by
   * zero gives `Infinity`, or `NaN` for an empty list; a negative `limit` gives
   * the ceiling of a negative quotient.
   */
  function TotalPages(n: nat, limit: int): (c: PageCount)
    ensures limit >= 1 ==> c == Finite(CeilDiv(n, limit))
    ensures limit == 0 ==> c == if n == 0 then NotANumber else Infinite
    ensures limit < 0 ==> c.Finite? && c.count <= 0 && c.count * limit <= n < (c.count - 1) * limit
  {
    if limit >= 1 then Finite(CeilDiv(n, limit))
    else if limit == 0 then (if n == 0 then NotANumber else Infinite)
    else
      var m := -limit;
      var q := n / m;
      assert q * m <= n < (q + 1) * m;
      Finite(-q)
  }

  /** The index of the first item of page `page`. */
  function PageStart(page: int, limit: int): (start: int)
    ensures page >= 1 && limit >= 0 ==> start >= 0
  {
    (page - 1) * limit
  }

  /**
   * `paginateResults(items, page = 1, limit = 12)`: the 1-based window of `limit`
   * items and the totals.
   */
  function PaginateResults(items: seq<Product>, page: Option<int>, limit: Option<int>): (r: PageResult)
    ensures r.page == (if page.Some? then page.value else DefaultPage)
    ensures r.limit == (if limit.Some? then limit.value else DefaultLimit)
    ensures r.totalItems == |items|
    ensures r.totalPages == TotalPages(|items|, r.limit)
    ensures r.limit == 0 ==> r.items == []
    ensures r.page >= 1 && r.limit >= 0 ==> |r.items| <= r.limit
    ensures r.page >= 1 && r.limit >= 0 ==>
      r.items == items[Min(PageStart(r.page, r.limit), |items|)..Min(PageStart(r.page, r.limit) + r.limit, |items|)]
  {
    var page := if page.Some? then page.value else DefaultPage;
    var limit := if limit.Some? then limit.value else DefaultLimit;
    var startIndex := PageStart(page, limit);
    var endIndex := startIndex + limit;
    PageResult(JsSlice(items, startIndex, endIndex), page, limit, |items|, TotalPages(|items|, limit))
  }

  lemma MulMonotone(a: int, b: int, c: int)
    requires a >= b && c >= 0
    ensures a * c >= b * c
  {
    assert a * c == b * c + (a - b) * c;
  }

  /** A page past the last one is empty and still reports the totals. */
  lemma PageBeyondLastIsEmpty(items: seq<Product>, page: int, limit: int)
    requires limit >= 1
    requires page > CeilDiv(|items|, limit)
    ensures PaginateResults(items, Some(page), Some(limit)).items == []
    ensures PaginateResults(items, Some(page), Some(limit)).totalItems == |items|
    ensures PaginateResults(items, Some(page), Some(limit)).totalPages == Finite(CeilDiv(|items|, limit))
  {
    var pages := CeilDiv(|items|, limit);
    MulMonotone(page - 1, pages, limit);
    assert PageStart(page, limit) >= |items|;
  }

  /** Pages 1 to `k` of `items`, concatenated. */
  ghost function PagesUpTo(items: seq<Product>, limit: int, k: nat): seq<Product>
    requires limit >= 1
  {
    if k == 0 then [] else PagesUpTo(items, limit, k - 1) + PaginateResults(items, Some(k), Some(limit)).items
  }

  lemma {:induction false} PagesUpToIsPrefix(items: seq<Product>, limit: int, k: nat)
    requires limit >= 1
    ensures PagesUpTo(items, limit, k) == JsSlice(items, 0, PageStart(k + 1, limit))
  {
    if k > 0 {
      var lo, hi := PageStart(k, limit), PageStart(k + 1, limit);
      PagesUpToIsPrefix(items, limit, k - 1);
      PagesUpToStep(items, limit, k);
      SliceConcat(items, 0, lo, hi);
    }
  }

  /** Pages 1 to `k` are pages 1 to `k - 1` followed by the slice of page `k`. */
  lemma PagesUpToStep(items: seq<Product>, limit: int, k: nat)
    requires limit >= 1 && k >= 1
    ensures 0 <= PageStart(k, limit) <= PageStart(k + 1, limit)
    ensures PagesUpTo(items, limit, k) ==
      PagesUpTo(items, limit, k - 1) + JsSlice(items, PageStart(k, limit), PageStart(k + 1, limit))
  {
    NextPageStart(k, limit);
    PageIsSlice(items, k, limit);
  }

  /** The next page starts `limit` items further on. */
  lemma NextPageStart(k: int, limit: int)
    requires k >= 1 && limit >= 0
    ensures PageStart(k, limit) >= 0
    ensures PageStart(k + 1, limit) == PageStart(k, limit) + limit
  {
    assert k * limit == (k - 1) * limit + limit;
  }

  /** Page `page` is the slice from its start index, `limit` items long. */
  lemma PageIsSlice(items: seq<Product>, page: int, limit: int)
    requires page >= 1 && limit >= 1
    ensures PaginateResults(items, Some(page), Some(limit)).items ==
      JsSlice(items, PageStart(page, limit), PageStart(page, limit) + limit)
  {
  }

  /** For a fixed page size, pages 1 to `totalPages` reproduce the list exactly. */
  lemma PagesTileTheList(items: seq<Product>, limit: int)
    requires limit >= 1
    ensures PagesUpTo(items, limit, CeilDiv(|items|, limit)) == items
  {
    var pages := CeilDiv(|items|, limit);
    PagesUpToIsPrefix(items, limit, pages);
    assert PageStart(pages + 1, limit) == pages * limit;
  }

  /**
   * `fetchProducts(params)` without its delay: filter and sort the catalog, then
   * paginate. The page is a window of the stable sort of the selected products.
   */
  method FetchProducts(products: array<Product>, params: Filters, nameLe: (string, string) -> bool)
    returns (r: PageResult)
    requires TotalPreorder(nameLe)
    ensures r.limit == (if params.limit.Some? then params.limit.value else DefaultLimit)
    ensures r.totalItems == |Selected(products[..], params)|
    ensures r.totalPages == TotalPages(r.totalItems, r.limit)
    ensures exists sorted ::
      StablySorted(KeyOrder(SortKeyOf(params.sortBy), nameLe), sorted, Selected(products[..], params)) &&
      r == PaginateResults(sorted, params.page, params.limit)
    ensures SortKeyOf(params.sortBy) == Newest ==>
      r == PaginateResults(Selected(products[..], params), params.page, params.limit)
  {
    var filtered := FilterAndSortProducts(products, params, nameLe);
    r := PaginateResults(filtered, params.page, params.limit);
    assert |filtered| == |multiset(filtered)| == |multiset(Selected(products[..], params))|;
  }
}
