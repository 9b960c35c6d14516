/** The catalog handlers of the server: `getAllBatteries` and
    `searchBatteries` (filter, sort, paginate, echo the applied filters),
    `getCategories`, `getBrands` and `getCapacities` (facet lists) and
    `getBatteryBySlug` (lookup). The catalog is the handler's input; loading
    it from disk is not part of this model. */
module Catalog {
  import opened Optional
  import opened Text
  import opened Seqs
  import opened Battery
  import opened CatalogSort

  /** The query parameters the handlers read. An empty string stands both for
      an absent parameter and for an empty one, which the handlers treat
      alike; a price bound is `None` when it is absent or empty, otherwise
      the number it denotes. `page` and `limit` are `None` when absent. */
  datatype Query = Query(
    q: string,
    category: string,
    brand: string,
    capacity: string,
    minPrice: Option<int>,
    maxPrice: Option<int>,
    sortBy: string,
    page: Option<int>,
    limit: Option<int>)

  /** The handlers divide by `limit`; the model requires a positive one. */
  predicate ValidLimit(query: Query)
  {
    query.limit.Some? ==> query.limit.value >= 1
  }

  /** `page = 1` and `limit = 10` when absent. */
  function PageOf(query: Query): int { query.page.GetOr(1) }

  function LimitOf(query: Query): (l: int)
    requires ValidLimit(query)
    ensures l >= 1
    ensures query.limit.None? ==> l == 10
    ensures query.limit.Some? ==> l == query.limit.value
  {
    query.limit.GetOr(10)
  }

  // ---------------------------------------------------------------------
  // Filters: the predicates that `batteries.filter` is called with

  datatype Criterion =
    | TextMatches(term: string)
    | CategoryIs(category: string)
    | BrandIs(brand: string)
    | CapacityIs(capacity: string)
    | PriceWithin(min: Option<int>, max: Option<int>)

  /** `regex.test(b.name) || regex.test(b.description) || b.tags.some(...)`
      for a regular expression made of plain characters and the `i` flag. */
  predicate MatchesTerm(p: Product, term: string)
  {
    ContainsIgnoreCase(p.name, term) ||
    ContainsIgnoreCase(p.description, term) ||
    exists i | 0 <= i < |p.tags| :: ContainsIgnoreCase(p.tags[i], term)
  }

  predicate Holds(c: Criterion, p: Product)
  {
    match c
    case TextMatches(term) => MatchesTerm(p, term)
    case CategoryIs(v) => p.category == v
    case BrandIs(v) => p.brand == v
    case CapacityIs(v) => p.capacity == v
    case PriceWithin(min, max) =>
      // a missing bound is -Infinity or Infinity
      (min.None? || min.value <= p.price) && (max.None? || p.price <= max.value)
  }

  /** `s.filter(b => Holds(c, b))` */
  function Keep(s: seq<Product>, c: Criterion): (r: seq<Product>)
    ensures forall p :: p in r <==> p in s && Holds(c, p)
  {
    if s == [] then []
    else
      assert forall p :: p in s <==> p in s[..|s| - 1] || p == s[|s| - 1];
      Keep(s[..|s| - 1], c) + (if Holds(c, s[|s| - 1]) then [s[|s| - 1]] else [])
  }

  predicate HoldsAll(cs: seq<Criterion>, p: Product)
  {
    forall i :: 0 <= i < |cs| ==> Holds(cs[i], p)
  }

  /** One pass over `s` keeping what every criterion of `cs` accepts. */
  function KeepAll(s: seq<Product>, cs: seq<Criterion>): (r: seq<Product>)
    ensures forall p :: p in r <==> p in s && HoldsAll(cs, p)
  {
    if s == [] then []
    else
      assert forall p :: p in s <==> p in s[..|s| - 1] || p == s[|s| - 1];
      KeepAll(s[..|s| - 1], cs) + (if HoldsAll(cs, s[|s| - 1]) then [s[|s| - 1]] else [])
  }

  /** Each record that every criterion accepts is kept as often as `s`
      holds it; every other record is dropped. */
  lemma {:induction false} KeepAllCount(s: seq<Product>, cs: seq<Criterion>, p: Product)
    ensures multiset(KeepAll(s, cs))[p] == if HoldsAll(cs, p) then multiset(s)[p] else 0
  {
    if s != [] {
      var init, last := s[..|s| - 1], s[|s| - 1];
      KeepAllCount(init, cs, p);
      FilterCountStep(s, KeepAll(init, cs), KeepAll(s, cs), HoldsAll(cs, last), HoldsAll(cs, p), p);
    }
  }

  lemma {:induction false} KeepAllNone(s: seq<Product>)
    ensures KeepAll(s, []) == s
  {
    if s != [] {
      var init, last := s[..|s| - 1], s[|s| - 1];
      KeepAllNone(init);
      assert HoldsAll([], last);
      assert KeepAll(s, []) == KeepAll(init, []) + [last];
      assert init + [last] == s;
    }
  }

  /** Filtering the result of earlier filters is one filter by all of them. */
  lemma {:induction false} KeepAfterKeepAll(s: seq<Product>, cs: seq<Criterion>, c: Criterion)
    ensures Keep(KeepAll(s, cs), c) == KeepAll(s, cs + [c])
  {
    if s != [] {
      var init, last := s[..|s| - 1], s[|s| - 1];
      KeepAfterKeepAll(init, cs, c);
      assert HoldsAll(cs + [c], last) <==> HoldsAll(cs, last) && Holds(c, last) by {
        assert forall i :: 0 <= i < |cs| ==> (cs + [c])[i] == cs[i];
        assert (cs + [c])[|cs|] == c;
      }
      var r := KeepAll(init, cs);
      if HoldsAll(cs, last) {
        assert (r + [last])[..|r + [last]| - 1] == r;
      } else {
        assert r + [] == r;
      }
    }
  }

  /** Filtering only removes elements and keeps the order of the rest. */
  lemma {:induction false} KeepAllSubsequence(s: seq<Product>, cs: seq<Criterion>)
    ensures IsSubsequence(KeepAll(s, cs), s)
    ensures |KeepAll(s, cs)| <= |s|
  {
    if s != [] {
      var init, last := s[..|s| - 1], s[|s| - 1];
      KeepAllSubsequence(init, cs);
      var r := KeepAll(init, cs);
      if HoldsAll(cs, last) {
        assert (r + [last])[..|r + [last]| - 1] == r;
      } else {
        assert r + [] == r;
      }
    }
    SubsequenceElements(KeepAll(s, cs), s);
  }

  /** A filter that is applied only when its parameter is given. */
  function When(given: bool, c: Criterion): seq<Criterion>
  {
    if given then [c] else []
  }

  /** The filters of `getAllBatteries`, in the order it applies them. */
  function ListCriteria(query: Query): seq<Criterion>
  {
    When(query.category != "", CategoryIs(query.category)) +
    When(query.brand != "", BrandIs(query.brand)) +
    When(query.capacity != "", CapacityIs(query.capacity)) +
    When(query.minPrice.Some? || query.maxPrice.Some?, PriceWithin(query.minPrice, query.maxPrice))
  }

  /** The filters of `searchBatteries`: the text filter first. */
  function SearchCriteria(query: Query): seq<Criterion>
  {
    When(query.q != "", TextMatches(query.q)) + ListCriteria(query)
  }

  /** What a product must be to be listed by `getAllBatteries`, field by
      field: its category, brand and capacity equal to the given ones, its
      price between the given bounds, both inclusive. */
  predicate Listed(query: Query, p: Product)
  {
    (query.category == "" || p.category == query.category) &&
    (query.brand == "" || p.brand == query.brand) &&
    (query.capacity == "" || p.capacity == query.capacity) &&
    (query.minPrice.None? || query.minPrice.value <= p.price) &&
    (query.maxPrice.None? || p.price <= query.maxPrice.value)
  }

  /** ... and by `searchBatteries`: also matching the term, when one is given,
      in the name, the description or a tag, ignoring case. The brand is not
      searched. */
  predicate Found(query: Query, p: Product)
  {
    (query.q == "" || MatchesTerm(p, query.q)) && Listed(query, p)
  }

  lemma HoldsAllAppend(a: seq<Criterion>, b: seq<Criterion>, p: Product)
    ensures HoldsAll(a + b, p) <==> HoldsAll(a, p) && HoldsAll(b, p)
  {
    assert forall i :: 0 <= i < |a| ==> (a + b)[i] == a[i];
    assert forall i :: 0 <= i < |b| ==> (a + b)[|a| + i] == b[i];
    if HoldsAll(a, p) && HoldsAll(b, p) {
      forall i | 0 <= i < |a + b| ensures Holds((a + b)[i], p) {
        if i >= |a| { assert (a + b)[i] == b[i - |a|]; }
      }
    }
  }

  lemma WhenMeaning(given: bool, c: Criterion, p: Product)
    ensures HoldsAll(When(given, c), p) <==> !given || Holds(c, p)
  {
    if given { assert When(given, c)[0] == c; }
  }

  lemma ListCriteriaMeaning(query: Query, p: Product)
    ensures HoldsAll(ListCriteria(query), p) <==> Listed(query, p)
  {
    var c1 := When(query.category != "", CategoryIs(query.category));
    var c2 := When(query.brand != "", BrandIs(query.brand));
    var c3 := When(query.capacity != "", CapacityIs(query.capacity));
    var c4 := When(query.minPrice.Some? || query.maxPrice.Some?, PriceWithin(query.minPrice, query.maxPrice));
    WhenMeaning(query.category != "", CategoryIs(query.category), p);
    WhenMeaning(query.brand != "", BrandIs(query.brand), p);
    WhenMeaning(query.capacity != "", CapacityIs(query.capacity), p);
    WhenMeaning(query.minPrice.Some? || query.maxPrice.Some?, PriceWithin(query.minPrice, query.maxPrice), p);
    HoldsAllAppend(c1 + c2 + c3, c4, p);
    HoldsAllAppend(c1 + c2, c3, p);
    HoldsAllAppend(c1, c2, p);
  }

  /** `getAllBatteries` keeps exactly the listed products of the catalog,
      each as often as the catalog holds it, in catalog order. */
  lemma ListFilterExact(catalog: seq<Product>, query: Query)
    ensures forall p :: p in KeepAll(catalog, ListCriteria(query)) <==> p in catalog && Listed(query, p)
    ensures forall p :: multiset(KeepAll(catalog, ListCriteria(query)))[p] ==
                        if Listed(query, p) then multiset(catalog)[p] else 0
    ensures IsSubsequence(KeepAll(catalog, ListCriteria(query)), catalog)
  {
    forall p ensures HoldsAll(ListCriteria(query), p) <==> Listed(query, p) {
      ListCriteriaMeaning(query, p);
    }
    forall p ensures multiset(KeepAll(catalog, ListCriteria(query)))[p] ==
                     if Listed(query, p) then multiset(catalog)[p] else 0 {
      KeepAllCount(catalog, ListCriteria(query), p);
    }
    KeepAllSubsequence(catalog, ListCriteria(query));
  }

  /** `searchBatteries` keeps exactly the found products, each as often as
      the catalog holds it, in catalog order. */
  lemma SearchFilterExact(catalog: seq<Product>, query: Query)
    ensures forall p :: p in KeepAll(catalog, SearchCriteria(query)) <==> p in catalog && Found(query, p)
    ensures forall p :: multiset(KeepAll(catalog, SearchCriteria(query)))[p] ==
                        if Found(query, p) then multiset(catalog)[p] else 0
    ensures IsSubsequence(KeepAll(catalog, SearchCriteria(query)), catalog)
  {
    forall p ensures HoldsAll(SearchCriteria(query), p) <==> Found(query, p) {
      ListCriteriaMeaning(query, p);
      WhenMeaning(query.q != "", TextMatches(query.q), p);
      HoldsAllAppend(When(query.q != "", TextMatches(query.q)), ListCriteria(query), p);
    }
    forall p ensures multiset(KeepAll(catalog, SearchCriteria(query)))[p] ==
                     if Found(query, p) then multiset(catalog)[p] else 0 {
      KeepAllCount(catalog, SearchCriteria(query), p);
    }
    KeepAllSubsequence(catalog, SearchCriteria(query));
  }

  // ---------------------------------------------------------------------
  // Pagination

  /** `Array.prototype.slice(start, end)`: negative positions count from the
      end, positions past the end stop there (ECMA-262, section 23.1.3.28
      of the 2023 edition). */
  function RelativeIndex(i: int, len: nat): (r: nat)
    ensures r <= len
  {
    if i < 0 then (if len + i < 0 then 0 else len + i)
    else if i < len then i else len
  }

  function JsSlice(s: seq<Product>, start: int, end: int): seq<Product>
  {
    var from, to := RelativeIndex(start, |s|), RelativeIndex(end, |s|);
    if from < to then s[from..to] else []
  }

  /** `Math.ceil(total / limit)`: the fewest pages of `limit` items that hold
      `total` items. */
  function PageCount(total: nat, limit: int): (pages: nat)
    requires limit >= 1
    ensures pages * limit >= total
    ensures pages == 0 || (pages - 1) * limit < total
    ensures pages == 0 <==> total == 0
  {
    var n := total + limit - 1;
    var q, r := n / limit, n % limit;
    assert n == q * limit + r && 0 <= r < limit;
    assert q * limit == total + limit - 1 - r;
    assert (q - 1) * limit == q * limit - limit;
    q
  }

  /** The items of one page: `batteries.slice(skip, skip + Number(limit))`
      with `skip = (page - 1) * limit`. */
  function PageItems(sorted: seq<Product>, page: int, limit: int): seq<Product>
  {
    var skip := (page - 1) * limit;
    JsSlice(sorted, skip, skip + limit)
  }

  /** For a page from 1 on, the page is the window of the sorted list from
      `skip` to `skip + limit`, cut at the end of the list; a page that starts
      past the end is empty. */
  lemma PageWindow(sorted: seq<Product>, page: int, limit: int)
    requires page >= 1 && limit >= 1
    ensures var skip := (page - 1) * limit;
            var from := if skip < |sorted| then skip else |sorted|;
            var to := if skip + limit < |sorted| then skip + limit else |sorted|;
            PageItems(sorted, page, limit) == sorted[from..to]
    ensures (page - 1) * limit >= |sorted| ==> PageItems(sorted, page, limit) == []
    ensures |PageItems(sorted, page, limit)| <= limit
  {
    NextSkip(page, limit);
    SliceWindow(sorted, (page - 1) * limit, limit);
  }

  /** `slice(skip, skip + limit)` from a non-negative `skip`. */
  lemma SliceWindow(sorted: seq<Product>, skip: int, limit: int)
    requires skip >= 0 && limit >= 1
    ensures var from := if skip < |sorted| then skip else |sorted|;
            var to := if skip + limit < |sorted| then skip + limit else |sorted|;
            JsSlice(sorted, skip, skip + limit) == sorted[from..to]
    ensures skip >= |sorted| ==> JsSlice(sorted, skip, skip + limit) == []
    ensures |JsSlice(sorted, skip, skip + limit)| <= limit
  {
  }

  /** Pages 1 to n, one after the other. */
  function FirstPages(sorted: seq<Product>, limit: int, n: nat): seq<Product>
  {
    if n == 0 then [] else FirstPages(sorted, limit, n - 1) + PageItems(sorted, n, limit)
  }

  lemma {:induction false} FirstPagesPrefix(sorted: seq<Product>, limit: int, n: nat)
    requires limit >= 1
    ensures var end := if n * limit < |sorted| then n * limit else |sorted|;
            FirstPages(sorted, limit, n) == sorted[..end]
  {
    if n > 0 {
      FirstPagesPrefix(sorted, limit, n - 1);
      var skip := (n - 1) * limit;
      NextSkip(n, limit);
      assert FirstPages(sorted, limit, n) == FirstPages(sorted, limit, n - 1) + JsSlice(sorted, skip, skip + limit);
      PrefixThenWindow(sorted, skip, limit, FirstPages(sorted, limit, n - 1), n * limit);
    }
  }

  lemma PrefixThenWindow(sorted: seq<Product>, skip: int, limit: int, before: seq<Product>, next: int)
    requires skip >= 0 && limit >= 1 && next == skip + limit
    requires before == sorted[..if skip < |sorted| then skip else |sorted|]
    ensures before + JsSlice(sorted, skip, next) == sorted[..if next < |sorted| then next else |sorted|]
  {
    SliceWindow(sorted, skip, limit);
  }

  lemma NextSkip(n: int, limit: int)
    requires n >= 1 && limit >= 1
    ensures (n - 1) * limit + limit == n * limit && (n - 1) * limit >= 0
  {
  }

  /** For every limit, the pages from 1 to `pages` together are the sorted
      list: no item on two pages, no item on none. */
  lemma PagesPartition(sorted: seq<Product>, limit: int)
    requires limit >= 1
    ensures FirstPages(sorted, limit, PageCount(|sorted|, limit)) == sorted
  {
    FirstPagesPrefix(sorted, limit, PageCount(|sorted|, limit));
  }

  datatype Pagination = Pagination(total: nat, page: int, pages: nat, limit: int)

  // ---------------------------------------------------------------------
  // Applied filters

  datatype PriceRange = PriceRange(min: Option<int>, max: Option<int>)

  datatype AppliedFilters =
    | ListFilters(
        category: Option<string>, brand: Option<string>, capacity: Option<string>,
        priceRange: Option<PriceRange>, sortBy: string)
    | SearchFilters(
        searchQuery: Option<string>,
        category: Option<string>, brand: Option<string>, capacity: Option<string>,
        priceRange: Option<PriceRange>, sortBy: string)

  /** `value || null` */
  function OrNull(value: string): (r: Option<string>)
    ensures r.None? <==> value == ""
    ensures r.Some? ==> r.value == value
  {
    if value == "" then None else Some(value)
  }

  /** `Number(bound) || null`: a missing bound and a bound of 0 are null. */
  function NumberOrNull(bound: Option<int>): (r: Option<int>)
    ensures r.None? <==> bound.None? || bound.value == 0
    ensures r.Some? ==> r == bound
  {
    if bound.None? || bound.value == 0 then None else bound
  }

  /** `minPrice || maxPrice ? [...] : null` */
  function EchoPrice(query: Query): (r: Option<PriceRange>)
    ensures r.None? <==> query.minPrice.None? && query.maxPrice.None?
    ensures r.Some? ==> r.value == PriceRange(NumberOrNull(query.minPrice), NumberOrNull(query.maxPrice))
  {
    if query.minPrice.Some? || query.maxPrice.Some? then
      Some(PriceRange(NumberOrNull(query.minPrice), NumberOrNull(query.maxPrice)))
    else None
  }

  /** `sortBy || 'newest'`: the raw parameter, not the comparator used. */
  function EchoSortBy(query: Query): (r: string)
    ensures query.sortBy != "" ==> r == query.sortBy
    ensures query.sortBy == "" ==> r == "newest"
  {
    if query.sortBy == "" then "newest" else query.sortBy
  }

  /** An unknown `sortBy`, one `sortOptions` neither holds nor inherits,
      sorts by `newest` but is echoed as given. */
  lemma UnknownSortEchoedRaw(query: Query)
    requires query.sortBy !in {"", "priceAsc", "priceDesc", "ratingDesc", "newest", "__proto__"}
    requires query.sortBy !in NaNMethods + ThrowingMethods
    ensures SelectSort(query.sortBy) == Ordering(Newest)
    ensures EchoSortBy(query) != "newest" && EchoSortBy(query) == query.sortBy
  {
  }

  // ---------------------------------------------------------------------
  // The handlers

  /** The JSON body: the page of results, or the 500 answer of the `catch`
      block (the engine's error text is not modelled). */
  datatype Response =
    | Success(data: seq<Product>, pagination: Pagination, appliedFilters: AppliedFilters)
    | ServerError(message: string)

  /** `batteries.sort(...)`: the list copied into an array and sorted there. */
  method SortedCopy(batteries: seq<Product>, sort: SortKey) returns (sorted: seq<Product>)
    ensures sorted == StableSort(sort, batteries)
  {
    var a := new Product[|batteries|](i requires 0 <= i < |batteries| => batteries[i]);
    assert a[..] == batteries;
    SortInPlace(a, sort);
    sorted := a[..];
  }

  datatype Page = Page(data: seq<Product>, pagination: Pagination)

  /** Sorting and pagination, shared by both handlers: looks the comparator
      up, copies the filtered list into an array, sorts it in place and cuts
      out the requested page; `None` when `sort` throws. */
  method SortAndPaginate(batteries: seq<Product>, query: Query) returns (r: Option<Page>)
    requires ValidLimit(query)
    ensures r.None? <==> SortThrows(SelectSort(query.sortBy), |batteries|)
    ensures r.Some? ==>
      r.value.data == PageItems(StableSort(OrderOf(SelectSort(query.sortBy)), batteries), PageOf(query), LimitOf(query))
    ensures r.Some? ==>
      r.value.pagination == Pagination(|batteries|, PageOf(query), PageCount(|batteries|, LimitOf(query)), LimitOf(query))
  {
    r := SortWith(batteries, SelectSort(query.sortBy), query);
  }

  /** The same steps once the comparator has been looked up. */
  method SortWith(batteries: seq<Product>, sort: Comparator, query: Query) returns (r: Option<Page>)
    requires ValidLimit(query)
    ensures r.None? <==> SortThrows(sort, |batteries|)
    ensures r.Some? ==>
      r.value.data == PageItems(StableSort(OrderOf(sort), batteries), PageOf(query), LimitOf(query))
    ensures r.Some? ==>
      r.value.pagination == Pagination(|batteries|, PageOf(query), PageCount(|batteries|, LimitOf(query)), LimitOf(query))
  {
    if sort.NotCallable? {
      return None;
    }
    if sort.ThrowsWhenCalled? && |batteries| >= 2 {
      return None;
    }
    var sorted := SortedCopy(batteries, OrderOf(sort));
    var page, limit := PageOf(query), LimitOf(query);
    var skip := (page - 1) * limit;
    var total := |batteries|;
    r := Some(Page(JsSlice(sorted, skip, skip + limit), Pagination(total, page, PageCount(total, limit), limit)));
  }

  /** Through an inherited `toString` or `constructor`, the page is cut
      from the filtered list in catalog order. */
  lemma NaNComparatorKeepsOrder(batteries: seq<Product>, query: Query)
    requires query.sortBy in NaNMethods
    ensures !SortThrows(SelectSort(query.sortBy), |batteries|)
    ensures StableSort(OrderOf(SelectSort(query.sortBy)), batteries) == batteries
  {
    UnorderedKeepsOrder(batteries);
  }

  /** `__proto__` always fails, and a throwing inherited method fails
      exactly when there are two products to compare. */
  lemma InheritedFailures(n: nat, sortBy: string)
    ensures sortBy == "__proto__" ==> SortThrows(SelectSort(sortBy), n)
    ensures sortBy in ThrowingMethods ==> (SortThrows(SelectSort(sortBy), n) <==> n >= 2)
    ensures sortBy !in ThrowingMethods + {"__proto__"} ==> !SortThrows(SelectSort(sortBy), n)
  {
  }

  /** One `batteries = batteries.filter(...)` step, taken only when its
      parameter is given. */
  method Narrow(ghost catalog: seq<Product>, batteries: seq<Product>, ghost applied: seq<Criterion>,
                given: bool, c: Criterion)
    returns (narrowed: seq<Product>, ghost now: seq<Criterion>)
    requires batteries == KeepAll(catalog, applied)
    ensures now == applied + When(given, c)
    ensures narrowed == KeepAll(catalog, now)
  {
    if given {
      KeepAfterKeepAll(catalog, applied, c);
      narrowed, now := Keep(batteries, c), applied + [c];
    } else {
      assert applied + [] == applied;
      narrowed, now := batteries, applied;
    }
  }

  /** The filter steps of `getAllBatteries`, one after the other, applied to
      what earlier steps left. */
  method ListSteps(ghost catalog: seq<Product>, batteries: seq<Product>, ghost applied: seq<Criterion>,
                   query: Query)
    returns (narrowed: seq<Product>)
    requires batteries == KeepAll(catalog, applied)
    ensures narrowed == KeepAll(catalog, applied + ListCriteria(query))
  {
    var w1 := When(query.category != "", CategoryIs(query.category));
    var w2 := When(query.brand != "", BrandIs(query.brand));
    var w3 := When(query.capacity != "", CapacityIs(query.capacity));
    var w4 := When(query.minPrice.Some? || query.maxPrice.Some?, PriceWithin(query.minPrice, query.maxPrice));
    ghost var now;
    narrowed, now := Narrow(catalog, batteries, applied, query.category != "", CategoryIs(query.category));
    narrowed, now := Narrow(catalog, narrowed, now, query.brand != "", BrandIs(query.brand));
    narrowed, now := Narrow(catalog, narrowed, now, query.capacity != "", CapacityIs(query.capacity));
    narrowed, now := Narrow(catalog, narrowed, now, query.minPrice.Some? || query.maxPrice.Some?,
                            PriceWithin(query.minPrice, query.maxPrice));
    assert ListCriteria(query) == w1 + w2 + w3 + w4;
    Regroup(applied, w1, w2, w3, w4);
  }

  /** Appending four pieces one at a time appends their concatenation. */
  lemma Regroup<T>(a: seq<T>, b: seq<T>, c: seq<T>, d: seq<T>, e: seq<T>)
    ensures a + b + c + d + e == a + (b + c + d + e)
  {
    assert a + b + c + d + e == a + (b + c + d) + e;
  }

  method ListFilter(catalog: seq<Product>, query: Query) returns (batteries: seq<Product>)
    ensures batteries == KeepAll(catalog, ListCriteria(query))
  {
    KeepAllNone(catalog);
    batteries := ListSteps(catalog, catalog, [], query);
    assert [] + ListCriteria(query) == ListCriteria(query);
  }

  /** The filter steps of `searchBatteries`: the text filter, then the same
      steps as `getAllBatteries`. */
  method SearchFilter(catalog: seq<Product>, query: Query) returns (batteries: seq<Product>)
    ensures batteries == KeepAll(catalog, SearchCriteria(query))
  {
    KeepAllNone(catalog);
    ghost var applied;
    batteries, applied := Narrow(catalog, catalog, [], query.q != "", TextMatches(query.q));
    batteries := ListSteps(catalog, batteries, applied, query);
    assert [] + When(query.q != "", TextMatches(query.q)) == When(query.q != "", TextMatches(query.q));
  }

  method GetAllBatteries(catalog: seq<Product>, query: Query) returns (r: Response)
    requires ValidLimit(query)
    ensures var matching := KeepAll(catalog, ListCriteria(query));
            SortThrows(SelectSort(query.sortBy), |matching|) ==> r == ServerError("Server error")
    ensures var matching := KeepAll(catalog, ListCriteria(query));
            !SortThrows(SelectSort(query.sortBy), |matching|) ==>
              && r.Success?
              && r.data == PageItems(StableSort(OrderOf(SelectSort(query.sortBy)), matching), PageOf(query), LimitOf(query))
              && r.pagination == Pagination(|matching|, PageOf(query), PageCount(|matching|, LimitOf(query)), LimitOf(query))
              && r.appliedFilters == ListFilters(OrNull(query.category), OrNull(query.brand),
                                                 OrNull(query.capacity), EchoPrice(query), EchoSortBy(query))
  {
    var batteries := ListFilter(catalog, query);
    var page := SortAndPaginate(batteries, query);
    if page.None? {
      return ServerError("Server error");
    }
    var appliedFilters := ListFilters(OrNull(query.category), OrNull(query.brand),
                                      OrNull(query.capacity), EchoPrice(query), EchoSortBy(query));
    r := Success(page.value.data, page.value.pagination, appliedFilters);
  }

  method SearchBatteries(catalog: seq<Product>, query: Query) returns (r: Response)
    requires ValidLimit(query)
    ensures var matching := KeepAll(catalog, SearchCriteria(query));
            SortThrows(SelectSort(query.sortBy), |matching|) ==> r == ServerError("Server error")
    ensures var matching := KeepAll(catalog, SearchCriteria(query));
            !SortThrows(SelectSort(query.sortBy), |matching|) ==>
              && r.Success?
              && r.data == PageItems(StableSort(OrderOf(SelectSort(query.sortBy)), matching), PageOf(query), LimitOf(query))
              && r.pagination == Pagination(|matching|, PageOf(query), PageCount(|matching|, LimitOf(query)), LimitOf(query))
              && r.appliedFilters == SearchFilters(OrNull(query.q), OrNull(query.category), OrNull(query.brand),
                                                   OrNull(query.capacity), EchoPrice(query), EchoSortBy(query))
  {
    var batteries := SearchFilter(catalog, query);
    var page := SortAndPaginate(batteries, query);
    if page.None? {
      return ServerError("Server error");
    }
    var appliedFilters := SearchFilters(OrNull(query.q), OrNull(query.category), OrNull(query.brand),
                                        OrNull(query.capacity), EchoPrice(query), EchoSortBy(query));
    r := Success(page.value.data, page.value.pagination, appliedFilters);
  }

  // ---------------------------------------------------------------------
  // Facets

  /** `[sentinel, ...new Set(values)]` */
  function Facet(sentinel: string, values: seq<string>): (r: seq<string>)
    ensures |r| == 1 + |set v | v in values| && r[0] == sentinel
    ensures forall v :: v in r[1..] <==> v in values
    ensures NoDuplicates(r[1..])
    ensures forall i, j :: 1 <= i < j < |r| ==> FirstIndex(values, r[i]) < FirstIndex(values, r[j])
  {
    DistinctLength(values);
    DistinctFirstOccurrenceOrder(values);
    var r := [sentinel] + Distinct(values);
    assert r[1..] == Distinct(values);
    r
  }

  function Categories(catalog: seq<Product>): seq<string>
  {
    seq(|catalog|, i requires 0 <= i < |catalog| => catalog[i].category)
  }

  function Brands(catalog: seq<Product>): seq<string>
  {
    seq(|catalog|, i requires 0 <= i < |catalog| => catalog[i].brand)
  }

  function Capacities(catalog: seq<Product>): seq<string>
  {
    seq(|catalog|, i requires 0 <= i < |catalog| => catalog[i].capacity)
  }

  function GetCategories(catalog: seq<Product>): (r: seq<string>)
    ensures |r| >= 1 && r[0] == "All Types"
    ensures forall v :: v in r[1..] <==> exists p :: p in catalog && p.category == v
  {
    var values := Categories(catalog);
    assert forall v :: v in values <==> exists p :: p in catalog && p.category == v by {
      forall v | v in values ensures exists p :: p in catalog && p.category == v {
        var i :| 0 <= i < |values| && values[i] == v;
        assert catalog[i] in catalog;
      }
      forall p | p in catalog ensures p.category in values {
        var i :| 0 <= i < |catalog| && catalog[i] == p;
        assert values[i] == p.category;
      }
    }
    Facet("All Types", values)
  }

  function GetBrands(catalog: seq<Product>): (r: seq<string>)
    ensures |r| >= 1 && r[0] == "All Brands"
    ensures forall v :: v in r[1..] <==> exists p :: p in catalog && p.brand == v
  {
    var values := Brands(catalog);
    assert forall v :: v in values <==> exists p :: p in catalog && p.brand == v by {
      forall v | v in values ensures exists p :: p in catalog && p.brand == v {
        var i :| 0 <= i < |values| && values[i] == v;
        assert catalog[i] in catalog;
      }
      forall p | p in catalog ensures p.brand in values {
        var i :| 0 <= i < |catalog| && catalog[i] == p;
        assert values[i] == p.brand;
      }
    }
    Facet("All Brands", values)
  }

  function GetCapacities(catalog: seq<Product>): (r: seq<string>)
    ensures |r| >= 1 && r[0] == "All Capacities"
    ensures forall v :: v in r[1..] <==> exists p :: p in catalog && p.capacity == v
  {
    var values := Capacities(catalog);
    assert forall v :: v in values <==> exists p :: p in catalog && p.capacity == v by {
      forall v | v in values ensures exists p :: p in catalog && p.capacity == v {
        var i :| 0 <= i < |values| && values[i] == v;
        assert catalog[i] in catalog;
      }
      forall p | p in catalog ensures p.capacity in values {
        var i :| 0 <= i < |catalog| && catalog[i] == p;
        assert values[i] == p.capacity;
      }
    }
    Facet("All Capacities", values)
  }

  // ---------------------------------------------------------------------
  // Lookup

  datatype Lookup = Located(battery: Product) | NotFound(message: string)

  /** `batteries.find(b => b.slug === slug)`, and the 404 branch. */
  function GetBatteryBySlug(catalog: seq<Product>, slug: string): (r: Lookup)
    ensures r.NotFound? <==> forall p :: p in catalog ==> p.slug != slug
    ensures r.NotFound? ==> r.message == "Battery not found"
    ensures r.Located? ==> r.battery.slug == slug
    ensures r.Located? ==> exists i :: (0 <= i < |catalog| && catalog[i] == r.battery &&
                                        forall j :: 0 <= j < i ==> catalog[j].slug != slug)
  {
    if catalog == [] then NotFound("Battery not found")
    else if catalog[0].slug == slug then Located(catalog[0])
    else
      var r := GetBatteryBySlug(catalog[1..], slug);
      assert forall p :: p in catalog <==> p == catalog[0] || p in catalog[1..];
      if r.Located? then
        var i :| 0 <= i < |catalog[1..]| && catalog[1..][i] == r.battery &&
                 r.battery.slug == slug && forall j :: 0 <= j < i ==> catalog[1..][j].slug != slug;
        assert catalog[i + 1] == r.battery;
        assert forall j :: 0 <= j < i + 1 ==> catalog[j].slug != slug by {
          forall j | 0 <= j < i + 1 ensures catalog[j].slug != slug {
            if j > 0 { assert catalog[j] == catalog[1..][j - 1]; }
          }
        }
        r
      else r
  }
}
