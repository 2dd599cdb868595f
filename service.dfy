/**
 * The mock data service: the accessors the pages call, without their artificial
 * delay. Every accessor reads the shared catalog (`mockProducts`); the pure ones
 * take its current contents as a parameter, and `Catalog` holds the array itself
 * because `fetchFeaturedProducts` sorts it in place.
 */
module Service {
  import opened Wrappers
  import opened Seqs
  import opened Sorting
  import opened Products
  import opened Text
  import Query

  // ---------------------------------------------------------------- fetchProductById

  /** `catalog[k]` is the first product whose id is `id`. */
  predicate FirstWithId(catalog: seq<Product>, id: string, k: int)
  {
    0 <= k < |catalog| && catalog[k].id == id && forall j :: 0 <= j < k ==> catalog[j].id != id
  }

  /** `catalog.find(p => p.id === id)`. */
  function FindById(catalog: seq<Product>, id: string): (r: Option<Product>)
    ensures r.None? <==> forall k :: 0 <= k < |catalog| ==> catalog[k].id != id
    ensures r.Some? ==> exists k :: FirstWithId(catalog, id, k) && catalog[k] == r.value
  {
    if catalog == [] then None
    else if catalog[0].id == id then
      assert FirstWithId(catalog, id, 0);
      Some(catalog[0])
    else
      var r := FindById(catalog[1..], id);
      if r.Some? then
        var k :| FirstWithId(catalog[1..], id, k) && catalog[1..][k] == r.value;
        assert FirstWithId(catalog, id, k + 1);
        r
      else
        assert forall k :: 1 <= k < |catalog| ==> catalog[k].id == catalog[1..][k - 1].id;
        r
  }

  const ProductNotFound: string := "Product not found"

  /** `fetchProductById(productId)`: the first product with that id, or the "Product not found" error. */
  function FetchProductById(catalog: seq<Product>, productId: string): (r: Result<Product>)
    ensures r.Ok? <==> exists k :: 0 <= k < |catalog| && catalog[k].id == productId
    ensures r.Ok? ==> exists k :: FirstWithId(catalog, productId, k) && catalog[k] == r.value
    ensures r.Err? ==> r.message == ProductNotFound
  {
    match FindById(catalog, productId)
    case None => Err(ProductNotFound)
    case Some(product) => Ok(product)
  }

  // ---------------------------------------------------------------- fetchNewArrivals

  const NewArrivalsCount: int := 4

  function IsNew(): Product -> bool
  {
    (p: Product) => p.isNew
  }

  function IsNotNew(): Product -> bool
  {
    (p: Product) => !p.isNew
  }

  function NewProducts(catalog: seq<Product>): seq<Product>
  {
    Filter(catalog, IsNew())
  }

  function OtherProducts(catalog: seq<Product>): seq<Product>
  {
    Filter(catalog, IsNotNew())
  }

  /** `fetchNewArrivals()`: up to four products flagged new, topped up with products that are not. */
  function NewArrivals(catalog: seq<Product>): (r: seq<Product>)
    ensures |r| <= NewArrivalsCount
    ensures forall k :: 0 <= k < |r| ==> r[k] in catalog
  {
    var newProducts := NewProducts(catalog);
    if |newProducts| < NewArrivalsCount then
      var additionalProducts := JsSlice(OtherProducts(catalog), 0, NewArrivalsCount - |newProducts|);
      JsSlice(newProducts + additionalProducts, 0, NewArrivalsCount)
    else
      JsSlice(newProducts, 0, NewArrivalsCount)
  }

  /** New arrivals are the first `min(4, |catalog|)` of the new products followed by the others. */
  lemma NewArrivalsIsPrefix(catalog: seq<Product>)
    ensures |NewProducts(catalog)| + |OtherProducts(catalog)| == |catalog|
    ensures NewArrivals(catalog) ==
      (NewProducts(catalog) + OtherProducts(catalog))[..Min(NewArrivalsCount, |catalog|)]
  {
    var n, o := NewProducts(catalog), OtherProducts(catalog);
    FilterPartition(catalog, IsNew(), IsNotNew());
    if |n| < NewArrivalsCount {
      TopUpIsPrefix(n, o, NewArrivalsCount);
    } else {
      SliceFromZero(n, NewArrivalsCount);
      assert n[..NewArrivalsCount] == (n + o)[..NewArrivalsCount];
    }
  }

  /** `[...n, ...o.slice(0, cap - n.length)].slice(0, cap)` for `n` shorter than `cap`. */
  lemma TopUpIsPrefix(n: seq<Product>, o: seq<Product>, cap: int)
    requires |n| < cap
    ensures JsSlice(n + JsSlice(o, 0, cap - |n|), 0, cap) == (n + o)[..Min(cap, |n| + |o|)]
  {
    var k := cap - |n|;
    SliceFromZero(o, k);
    SliceFromZero(n + o[..Min(k, |o|)], cap);
    assert n + o[..Min(k, |o|)] == (n + o)[..|n| + Min(k, |o|)];
  }

  /**
   * New arrivals hold `min(4, |catalog|)` products: the first four new ones when
   * there are that many, otherwise every new one followed by the first products
   * that are not new.
   */
  lemma NewArrivalsCountAndChoice(catalog: seq<Product>)
    ensures |NewArrivals(catalog)| == Min(NewArrivalsCount, |catalog|)
    ensures |NewProducts(catalog)| >= NewArrivalsCount ==>
      NewArrivals(catalog) == NewProducts(catalog)[..NewArrivalsCount]
    ensures |NewProducts(catalog)| < NewArrivalsCount ==>
      NewArrivals(catalog) == NewProducts(catalog) +
        OtherProducts(catalog)[..Min(NewArrivalsCount - |NewProducts(catalog)|, |OtherProducts(catalog)|)]
  {
    var n, o := NewProducts(catalog), OtherProducts(catalog);
    NewArrivalsIsPrefix(catalog);
    PrefixOfConcat(n, o, Min(NewArrivalsCount, |catalog|));
  }

  /** New arrivals list the new products first, and each of them is a catalog product. */
  lemma NewArrivalsNewFirst(catalog: seq<Product>)
    ensures forall i, j :: 0 <= i < j < |NewArrivals(catalog)| && NewArrivals(catalog)[j].isNew ==>
      NewArrivals(catalog)[i].isNew
    ensures forall x :: x in NewArrivals(catalog) ==> x in catalog
  {
    var n, o := NewProducts(catalog), OtherProducts(catalog);
    NewArrivalsIsPrefix(catalog);
    var m := Min(NewArrivalsCount, |catalog|);
    ConcatPrefixGrouped(n, o, m, IsNew());
    ConcatPrefixMembers(n, o, m);
  }

  // ---------------------------------------------------------------- fetchRelatedProducts

  const DefaultRelatedLimit: int := 4

  predicate SameCategory(productId: string, current: Product, p: Product)
  {
    p.id != productId && p.category == current.category
  }

  predicate SameBrandOtherCategory(productId: string, current: Product, p: Product)
  {
    p.id != productId && p.category != current.category && p.brand == current.brand
  }

  function SameCategoryOf(productId: string, current: Product): Product -> bool
  {
    p => SameCategory(productId, current, p)
  }

  function SameBrandOf(productId: string, current: Product): Product -> bool
  {
    p => SameBrandOtherCategory(productId, current, p)
  }

  function RelatedByCategory(catalog: seq<Product>, productId: string, current: Product): seq<Product>
  {
    Filter(catalog, SameCategoryOf(productId, current))
  }

  function RelatedByBrand(catalog: seq<Product>, productId: string, current: Product): seq<Product>
  {
    Filter(catalog, SameBrandOf(productId, current))
  }

  /** `fetchRelatedProducts(productId, limit = 4)`. */
  function RelatedProducts(catalog: seq<Product>, productId: string, limit: Option<int>): (r: seq<Product>)
    ensures forall k :: 0 <= k < |r| ==> r[k] in catalog
    ensures limit.None? ==> |r| <= DefaultRelatedLimit
    ensures limit.Some? && limit.value >= 0 ==> |r| <= limit.value
  {
    var limit := if limit.Some? then limit.value else DefaultRelatedLimit;
    match FindById(catalog, productId)
    case None => JsSlice(catalog, 0, limit)
    case Some(current) =>
      var relatedByCat := RelatedByCategory(catalog, productId, current);
      if |relatedByCat| < limit then
        JsSlice(relatedByCat + RelatedByBrand(catalog, productId, current), 0, limit)
      else
        JsSlice(relatedByCat, 0, limit)
  }

  /** For an id that is not in the catalog, the first `limit` catalog products are returned instead. */
  lemma RelatedForUnknownId(catalog: seq<Product>, productId: string, limit: int)
    requires forall k :: 0 <= k < |catalog| ==> catalog[k].id != productId
    requires limit >= 0
    ensures RelatedProducts(catalog, productId, Some(limit)) == catalog[..Min(limit, |catalog|)]
  {
  }

  /**
   * For a known id, related products are catalog products other than the one
   * asked about, each in its category or, failing that, of its brand in
   * another category, with the same-category ones first.
   */
  lemma RelatedForKnownId(catalog: seq<Product>, productId: string, current: Product, limit: int)
    requires FindById(catalog, productId) == Some(current)
    requires limit >= 0
    ensures var r := RelatedProducts(catalog, productId, Some(limit));
      && (forall x :: x in r ==> x in catalog && x.id != productId)
      && (forall x :: x in r ==> SameCategory(productId, current, x) || SameBrandOtherCategory(productId, current, x))
      && (forall i, j :: 0 <= i < j < |r| && r[j].category == current.category ==> r[i].category == current.category)
  {
    var c, b := RelatedByCategory(catalog, productId, current), RelatedByBrand(catalog, productId, current);
    var m := Min(limit, |c| + |b|);
    RelatedIsPrefixOfCandidates(catalog, productId, current, limit);
    ConcatPrefixMembers(c, b, m);
    ConcatPrefixGrouped(c, b, m, InCategoryOf(current));
  }

  /**
   * Related products are as many as `limit` allows; a list shorter than `limit`
   * holds every candidate.
   */
  lemma RelatedCountAndCompleteness(catalog: seq<Product>, productId: string, current: Product, limit: int)
    requires FindById(catalog, productId) == Some(current)
    requires limit >= 0
    ensures var r := RelatedProducts(catalog, productId, Some(limit));
      && |r| == Min(limit, |RelatedByCategory(catalog, productId, current)| + |RelatedByBrand(catalog, productId, current)|)
      && (|r| < limit ==>
            forall x :: (x in catalog && (SameCategory(productId, current, x) || SameBrandOtherCategory(productId, current, x))) ==> x in r)
  {
    var c, b := RelatedByCategory(catalog, productId, current), RelatedByBrand(catalog, productId, current);
    RelatedIsPrefixOfCandidates(catalog, productId, current, limit);
    if |c| + |b| < limit {
      assert (c + b)[..|c| + |b|] == c + b;
    }
  }

  function InCategoryOf(current: Product): Product -> bool
  {
    (p: Product) => p.category == current.category
  }

  /** Related products are the first `limit` candidates: same category first, then same brand. */
  lemma RelatedIsPrefixOfCandidates(catalog: seq<Product>, productId: string, current: Product, limit: int)
    requires FindById(catalog, productId) == Some(current)
    requires limit >= 0
    ensures var c, b := RelatedByCategory(catalog, productId, current), RelatedByBrand(catalog, productId, current);
      RelatedProducts(catalog, productId, Some(limit)) == (c + b)[..Min(limit, |c| + |b|)]
  {
    var c, b := RelatedByCategory(catalog, productId, current), RelatedByBrand(catalog, productId, current);
    if |c| < limit {
      SliceFromZero(c + b, limit);
    } else {
      SliceFromZero(c, limit);
      assert c[..limit] == (c + b)[..limit];
    }
  }

  // ---------------------------------------------------------------- searchProducts

  const SearchLimit: int := 20

  datatype SearchResult = SearchResult(items: seq<Product>, totalItems: nat)

  /** `!query || query.trim() === ''`. */
  predicate IsBlankQuery(query: Option<string>)
  {
    query.None? || Trim(query.value) == ""
  }

  /** The lower-cased name or the lower-cased description contains `q`. */
  predicate MatchesQuery(q: string, p: Product)
    ensures MatchesQuery(q, p) <==>
      (exists i :: OccursAt(ToLower(p.name), q, i)) || (exists i :: OccursAt(ToLower(p.description), q, i))
  {
    ContainsIffOccurs(ToLower(p.name), q);
    ContainsIffOccurs(ToLower(p.description), q);
    Contains(ToLower(p.name), q) || Contains(ToLower(p.description), q)
  }

  function MatchesQueryOf(q: string): Product -> bool
  {
    p => MatchesQuery(q, p)
  }

  /** The products whose lower-cased name or description contains `q`, in catalog order. */
  function SearchMatches(catalog: seq<Product>, q: string): (r: seq<Product>)
    ensures |r| <= |catalog|
    ensures forall k :: 0 <= k < |r| ==> r[k] in catalog && MatchesQuery(q, r[k])
    ensures forall k :: 0 <= k < |catalog| && MatchesQuery(q, catalog[k]) ==> catalog[k] in r
  {
    Filter(catalog, MatchesQueryOf(q))
  }

  /** `searchProducts(query)`. */
  function SearchProducts(catalog: seq<Product>, query: Option<string>): (r: SearchResult)
    ensures IsBlankQuery(query) ==> r == SearchResult([], 0)
  {
    if query.None? || Trim(query.value) == "" then SearchResult([], 0)
    else
      var normalizedQuery := Trim(ToLower(query.value));
      var results := SearchMatches(catalog, normalizedQuery);
      SearchResult(JsSlice(results, 0, SearchLimit), |results|)
  }

  /**
   * A non-blank query becomes a non-empty lower-cased needle; `totalItems`
   * counts every match and `items` is the first `min(20, totalItems)` of them
   * in catalog order.
   */
  lemma SearchTotals(catalog: seq<Product>, query: string)
    requires Trim(query) != ""
    ensures Trim(ToLower(query)) != ""
    ensures SearchProducts(catalog, Some(query)).totalItems == |SearchMatches(catalog, Trim(ToLower(query)))|
    ensures SearchProducts(catalog, Some(query)).items ==
      SearchMatches(catalog, Trim(ToLower(query)))[..Min(SearchLimit, |SearchMatches(catalog, Trim(ToLower(query)))|)]
  {
    LowerKeepsBlankness(query);
    SliceFromZero(SearchMatches(catalog, Trim(ToLower(query))), SearchLimit);
  }

  /** The matches are exactly the catalog products whose name or description contains `q`, each as often as in the catalog. */
  lemma SearchMatchesAreExact(catalog: seq<Product>, q: string, p: Product)
    ensures multiset(SearchMatches(catalog, q))[p] == if MatchesQuery(q, p) then multiset(catalog)[p] else 0
  {
    FilterMultiset(catalog, MatchesQueryOf(q), p);
  }

  /** Every product a search returns is a catalog product whose lower-cased name or description has `q` at some position. */
  lemma SearchItemsContainQuery(catalog: seq<Product>, query: string)
    requires Trim(query) != ""
    ensures forall x :: x in SearchProducts(catalog, Some(query)).items ==>
      x in catalog &&
      ((exists i :: OccursAt(ToLower(x.name), Trim(ToLower(query)), i)) ||
       (exists i :: OccursAt(ToLower(x.description), Trim(ToLower(query)), i)))
  {
    var q := Trim(ToLower(query));
    SearchTotals(catalog, query);
    MatchPrefixIsMatches(catalog, q, Min(SearchLimit, |SearchMatches(catalog, q)|));
  }

  /** Every product of a prefix of the matches is a catalog product that matches. */
  lemma MatchPrefixIsMatches(catalog: seq<Product>, q: string, n: int)
    requires 0 <= n <= |SearchMatches(catalog, q)|
    ensures forall x :: x in SearchMatches(catalog, q)[..n] ==> x in catalog && MatchesQuery(q, x)
  {
    var matches := SearchMatches(catalog, q);
    forall x | x in matches[..n]
      ensures x in catalog && MatchesQuery(q, x)
    {
      var k :| 0 <= k < n && matches[..n][k] == x;
      assert x == matches[k];
    }
  }

  /** Queries that lower-case alike give the same search result. */
  lemma SearchIsCaseInsensitive(catalog: seq<Product>, q1: string, q2: string)
    requires ToLower(q1) == ToLower(q2)
    ensures SearchProducts(catalog, Some(q1)) == SearchProducts(catalog, Some(q2))
  {
    LowerKeepsBlankness(q1);
    LowerKeepsBlankness(q2);
  }

  // ---------------------------------------------------------------- fetchFeaturedProducts

  const FeaturedCount: int := 8

  /** The comparator `(a, b) => b.rating - a.rating`: `a` may stay before `b` when it rates at least as high. */
  predicate ByRating(a: Product, b: Product)
  {
    a.rating >= b.rating
  }

  lemma ByRatingIsTotalPreorder()
    ensures TotalPreorder(ByRating)
  {
  }

  /**
   * `r` is the featured selection of `catalog`: `min(8, |catalog|)` of its
   * products, highest rating first, none rated below a product left out.
   */
  ghost predicate IsTopRated(r: seq<Product>, catalog: seq<Product>)
  {
    && |r| == Min(FeaturedCount, |catalog|)
    && multiset(r) <= multiset(catalog)
    && Ordered(ByRating, r)
    && (forall x, y :: x in r && y in multiset(catalog) - multiset(r) ==> y.rating <= x.rating)
  }

  /** The first eight products of the stable rating sort of the catalog are its top rated ones. */
  lemma SortedPrefixIsTopRated(sorted: seq<Product>, catalog: seq<Product>)
    requires StablySorted(ByRating, sorted, catalog)
    ensures IsTopRated(sorted[..Min(FeaturedCount, |sorted|)], catalog)
  {
    ByRatingIsTotalPreorder();
    ClassesGivePermutation(ByRating, sorted, catalog);
    var k := Min(FeaturedCount, |sorted|);
    assert |sorted| == |multiset(sorted)| == |catalog|;
    assert sorted == sorted[..k] + sorted[k..];
    assert multiset(sorted[..k]) <= multiset(sorted);
    PrefixPrecedesRest(ByRating, sorted, k);
  }

  /** The shared catalog array, `mockProducts`. */
  class Catalog {
    var products: array<Product>

    constructor (items: seq<Product>)
      ensures fresh(products) && products[..] == items
    {
      products := new Product[|items|](i requires 0 <= i < |items| => items[i]);
    }

    /**
     * `fetchFeaturedProducts()` as written: `mockProducts.sort(...)` reorders the
     * shared array itself before the first eight are taken.
     */
    method FetchFeaturedProducts() returns (r: seq<Product>)
      modifies products
      ensures StablySorted(ByRating, products[..], old(products[..]))
      ensures multiset(products[..]) == multiset(old(products[..]))
      ensures Ordered(ByRating, old(products[..])) ==> products[..] == old(products[..])
      ensures r == products[..Min(FeaturedCount, products.Length)]
      ensures IsTopRated(r, old(products[..]))
    {
      ByRatingIsTotalPreorder();
      InsertionSort(products, ByRating);
      SliceFromZero(products[..], FeaturedCount);
      r := JsSlice(products[..], 0, FeaturedCount);
      SortedPrefixIsTopRated(products[..], old(products[..]));
      if Ordered(ByRating, old(products[..])) {
        OrderedIsFixpoint(ByRating, products[..], old(products[..]));
      }
    }

    /** `fetchFeaturedProducts()` sorting a copy, `[...mockProducts].sort(...)`, so the catalog keeps its order. */
    method FeaturedProducts() returns (r: seq<Product>)
      ensures IsTopRated(r, products[..])
      ensures exists sorted :: StablySorted(ByRating, sorted, products[..]) && r == sorted[..Min(FeaturedCount, |sorted|)]
    {
      ByRatingIsTotalPreorder();
      var snapshot := products[..];
      var copy := new Product[|snapshot|](i requires 0 <= i < |snapshot| => snapshot[i]);
      assert copy[..] == snapshot;
      InsertionSort(copy, ByRating);
      SliceFromZero(copy[..], FeaturedCount);
      r := JsSlice(copy[..], 0, FeaturedCount);
      SortedPrefixIsTopRated(copy[..], snapshot);
    }
  }

  // ---------------------------------------------------------------- the in-place sort seen by later calls

  function SampleProduct(id: string, rating: int): Product
  {
    Product(id, "Shoe Model", 5999, "", "", rating, 0, true, [], 10, "brand1", "cat1")
  }

  /** Two new products in generation order, the first rated 2.5 and the second 5. */
  function GenerationOrder(): seq<Product>
  {
    [SampleProduct("p1", 5), SampleProduct("p2", 10)]
  }

  /** The only stable rating sort of `GenerationOrder()` puts `p2` before `p1`. */
  lemma GenerationOrderSorted(after: seq<Product>)
    requires StablySorted(ByRating, after, GenerationOrder())
    ensures after == [GenerationOrder()[1], GenerationOrder()[0]]
  {
    var p1, p2 := GenerationOrder()[0], GenerationOrder()[1];
    var swapped := [p2, p1];
    ByRatingIsTotalPreorder();
    forall v
      ensures ClassOf(ByRating, swapped, v) == ClassOf(ByRating, GenerationOrder(), v)
    {
      assert !(Equivalent(ByRating, p1, v) && Equivalent(ByRating, p2, v));
      FilterSwap([], p1, p2, [], EquivalentTo(ByRating, v));
      assert [] + [p2, p1] + [] == swapped && [] + [p1, p2] + [] == GenerationOrder();
    }
    assert Ordered(ByRating, swapped);
    StableSortIsUnique(ByRating, after, swapped);
  }

  /** A catalog of at most four products, all new, is its own list of new arrivals. */
  lemma AllNewArrivals(catalog: seq<Product>)
    requires |catalog| <= NewArrivalsCount
    requires forall k :: 0 <= k < |catalog| ==> catalog[k].isNew
    ensures NewArrivals(catalog) == catalog
  {
    FilterKeepsAll(catalog, IsNew());
    NewArrivalsIsPrefix(catalog);
    assert (catalog + OtherProducts(catalog))[..|catalog|] == catalog;
  }

  const NoFilters: Query.Filters := Query.Filters(Query.NameList([]), Query.NameList([]), None, None, false, None, None, None)

  /**
   * Any state of the shared array after the in-place featured sort of
   * `GenerationOrder()` puts `p2` before `p1`, so the next `fetchNewArrivals`
   * and the next unfiltered, unsorted ("newest") `fetchProducts` see rating
   * order, not generation order.
   */
  lemma FeaturedSortReordersCatalog(after: seq<Product>)
    requires StablySorted(ByRating, after, GenerationOrder())
    ensures after == [GenerationOrder()[1], GenerationOrder()[0]]
    ensures NewArrivals(after) != NewArrivals(GenerationOrder())
    ensures Query.Selected(after, NoFilters) != Query.Selected(GenerationOrder(), NoFilters)
  {
    GenerationOrderSorted(after);
    FilterKeepsAll(after, Query.MatchesOf(NoFilters));
    FilterKeepsAll(GenerationOrder(), Query.MatchesOf(NoFilters));
    AllNewArrivals(after);
    AllNewArrivals(GenerationOrder());
    assert after[0] != GenerationOrder()[0];
  }
}
