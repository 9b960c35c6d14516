/** The filter state of the product listing page: reading it from the page's
    query string, writing it back into the address (leaving out defaults),
    the request parameters sent to the catalog (leaving out sentinels) and
    the reset. */
module ProductFilters {
  import opened Optional
  import opened Text
  import Url

  /** A price bound as `Number(...)` yields it: an integer, or NaN. */
  datatype Price = Amount(value: int) | NotANumber

  /** `Number(s)` for the strings the model covers. */
  function ToNumber(s: string): (p: Price)
    ensures p.Amount? <==> ParseInt(s).Some?
    ensures p.Amount? ==> p.value == ParseInt(s).value
  {
    match ParseInt(s)
    case Some(n) => Amount(n)
    case None => NotANumber
  }

  /** `String(p)` as `params.set` writes a number. */
  function PriceText(p: Price): string
  {
    match p
    case Amount(n) => IntToString(n)
    case NotANumber => "NaN"
  }

  /** Writing a bound and reading it back gives the bound, NaN included. */
  lemma PriceTextRoundTrip(p: Price)
    ensures ToNumber(PriceText(p)) == p
  {
    match p
    case Amount(n) => ParseIntToString(n);
    case NotANumber => assert !IsDigit('N');
  }

  const DefaultMin := Amount(2000)
  const DefaultMax := Amount(10000)
  const AllBrands := "All Brands"
  const AllTypes := "All Types"
  const AllCapacities := "All Capacities"

  datatype FilterState = FilterState(
    minPrice: Price, maxPrice: Price, brand: string, category: string, capacity: string)

  const Defaults := FilterState(DefaultMin, DefaultMax, AllBrands, AllTypes, AllCapacities)

  /** `query.get(name) || fallback`: an absent or empty parameter falls back. */
  function TextOr(query: seq<(string, string)>, name: string, fallback: string): (r: string)
    ensures Url.Get(query, name).Some? && Url.Get(query, name).value != "" ==> r == Url.Get(query, name).value
    ensures Url.Get(query, name).None? || Url.Get(query, name).value == "" ==> r == fallback
  {
    match Url.Get(query, name)
    case Some(v) => if v != "" then v else fallback
    case None => fallback
  }

  /** `query.get(name) ? Number(query.get(name)) : fallback` */
  function PriceOr(query: seq<(string, string)>, name: string, fallback: Price): (r: Price)
    ensures Url.Get(query, name).Some? && Url.Get(query, name).value != "" ==> r == ToNumber(Url.Get(query, name).value)
    ensures Url.Get(query, name).None? || Url.Get(query, name).value == "" ==> r == fallback
  {
    match Url.Get(query, name)
    case Some(v) => if v != "" then ToNumber(v) else fallback
    case None => fallback
  }

  /** The effect that reads the filter state from the decoded query string. */
  function ParseQuery(query: seq<(string, string)>): (s: FilterState)
    ensures Url.Get(query, "minPrice").None? ==> s.minPrice == DefaultMin
    ensures Url.Get(query, "maxPrice").None? ==> s.maxPrice == DefaultMax
    ensures Url.Get(query, "brand").None? ==> s.brand == AllBrands
    ensures Url.Get(query, "category").None? ==> s.category == AllTypes
    ensures Url.Get(query, "capacity").None? ==> s.capacity == AllCapacities
    ensures s.brand != "" && s.category != "" && s.capacity != ""
  {
    FilterState(
      PriceOr(query, "minPrice", DefaultMin),
      PriceOr(query, "maxPrice", DefaultMax),
      TextOr(query, "brand", AllBrands),
      TextOr(query, "category", AllTypes),
      TextOr(query, "capacity", AllCapacities))
  }

  /** An empty query string is the default state. */
  lemma EmptyQueryIsDefault()
    ensures ParseQuery([]) == Defaults
  {
  }

  /** The value the address gives a parameter name: each field's name is
      present exactly when the field differs from its default, with the
      field's text; no other name is present. */
  function Expected(s: FilterState, name: string): Option<string>
  {
    if name == "minPrice" then (if s.minPrice != DefaultMin then Some(PriceText(s.minPrice)) else None)
    else if name == "maxPrice" then (if s.maxPrice != DefaultMax then Some(PriceText(s.maxPrice)) else None)
    else if name == "brand" then (if s.brand != AllBrands then Some(s.brand) else None)
    else if name == "category" then (if s.category != AllTypes then Some(s.category) else None)
    else if name == "capacity" then (if s.capacity != AllCapacities then Some(s.capacity) else None)
    else None
  }

  ghost predicate Describes(params: seq<(string, string)>, s: FilterState)
  {
    forall name :: Url.Get(params, name) == Expected(s, name)
  }

  /** The five parameter names are different strings. */
  lemma NamesDistinct()
    ensures "minPrice" != "maxPrice" && "minPrice" != "brand" && "minPrice" != "category" && "minPrice" != "capacity"
    ensures "maxPrice" != "brand" && "maxPrice" != "category" && "maxPrice" != "capacity"
    ensures "brand" != "category" && "brand" != "capacity" && "category" != "capacity"
  {
    assert "minPrice"[1] != "maxPrice"[1];
    assert |"brand"| != |"category"| && |"brand"| != |"capacity"| && |"brand"| != |"minPrice"|;
    assert "category"[2] != "capacity"[2];
    assert "minPrice"[0] != "category"[0] && "maxPrice"[0] != "category"[0];
    assert "minPrice"[0] != "capacity"[0] && "maxPrice"[0] != "capacity"[0];
  }

  /** One optional pair. */
  function PairWhen(given: bool, name: string, value: string): seq<(string, string)>
  {
    if given then [(name, value)] else []
  }

  /** The pairs of the address for a state, in the order they are set. */
  function UrlParams(s: FilterState): seq<(string, string)>
  {
    PairWhen(s.minPrice != DefaultMin, "minPrice", PriceText(s.minPrice)) +
    PairWhen(s.maxPrice != DefaultMax, "maxPrice", PriceText(s.maxPrice)) +
    PairWhen(s.brand != AllBrands, "brand", s.brand) +
    PairWhen(s.category != AllTypes, "category", s.category) +
    PairWhen(s.capacity != AllCapacities, "capacity", s.capacity)
  }

  /** `get` on a list with one more optional pair at the end. */
  lemma GetPairWhen(pairs: seq<(string, string)>, given: bool, name: string, value: string, other: string)
    ensures other != name ==> Url.Get(pairs + PairWhen(given, name, value), other) == Url.Get(pairs, other)
    ensures other == name && Url.Get(pairs, name).None? ==>
              Url.Get(pairs + PairWhen(given, name, value), other) == (if given then Some(value) else None)
  {
    if given {
      Url.GetAppend(pairs, name, value);
    } else {
      assert pairs + PairWhen(given, name, value) == pairs;
    }
  }

  /** The address lists exactly the fields that differ from their defaults. */
  lemma UrlParamsDescribe(s: FilterState)
    ensures Describes(UrlParams(s), s)
  {
    NamesDistinct();
    var p0: seq<(string, string)> := [];
    var p1 := p0 + PairWhen(s.minPrice != DefaultMin, "minPrice", PriceText(s.minPrice));
    var p2 := p1 + PairWhen(s.maxPrice != DefaultMax, "maxPrice", PriceText(s.maxPrice));
    var p3 := p2 + PairWhen(s.brand != AllBrands, "brand", s.brand);
    var p4 := p3 + PairWhen(s.category != AllTypes, "category", s.category);
    var p5 := p4 + PairWhen(s.capacity != AllCapacities, "capacity", s.capacity);
    assert p1 == PairWhen(s.minPrice != DefaultMin, "minPrice", PriceText(s.minPrice));
    assert p5 == UrlParams(s);
    forall name ensures Url.Get(p5, name) == Expected(s, name) {
      GetPairWhen(p0, s.minPrice != DefaultMin, "minPrice", PriceText(s.minPrice), name);
      GetPairWhen(p1, s.maxPrice != DefaultMax, "maxPrice", PriceText(s.maxPrice), name);
      GetPairWhen(p2, s.brand != AllBrands, "brand", s.brand, name);
      GetPairWhen(p3, s.category != AllTypes, "category", s.category, name);
      GetPairWhen(p4, s.capacity != AllCapacities, "capacity", s.capacity, name);
    }
  }

  /** `if (given) params.set(name, value)` */
  method SetWhen(params: seq<(string, string)>, given: bool, name: string, value: string)
    returns (r: seq<(string, string)>)
    ensures Url.Get(params, name).None? ==> r == params + PairWhen(given, name, value)
    ensures !given ==> r == params
  {
    r := params;
    if given {
      r := Url.Set(params, name, value);
    }
  }

  /** The effect that writes the state into the address: `params.set` for each
      field that differs from its default, in field order. */
  method BuildUrl(s: FilterState) returns (params: seq<(string, string)>, url: string)
    ensures params == UrlParams(s)
    ensures Describes(params, s)
    ensures url == "/Product?" + Url.Serialize(params)
  {
    NamesDistinct();
    var v1, v2 := PriceText(s.minPrice), PriceText(s.maxPrice);
    var g1, g2, g3, g4, g5 := s.minPrice != DefaultMin, s.maxPrice != DefaultMax,
                              s.brand != AllBrands, s.category != AllTypes, s.capacity != AllCapacities;
    var p0: seq<(string, string)> := [];
    var p1 := SetWhen(p0, g1, "minPrice", v1);
    GetPairWhen(p0, g1, "minPrice", v1, "maxPrice");
    var p2 := SetWhen(p1, g2, "maxPrice", v2);
    GetPairWhen(p0, g1, "minPrice", v1, "brand");
    GetPairWhen(p1, g2, "maxPrice", v2, "brand");
    var p3 := SetWhen(p2, g3, "brand", s.brand);
    GetPairWhen(p0, g1, "minPrice", v1, "category");
    GetPairWhen(p1, g2, "maxPrice", v2, "category");
    GetPairWhen(p2, g3, "brand", s.brand, "category");
    var p4 := SetWhen(p3, g4, "category", s.category);
    GetPairWhen(p0, g1, "minPrice", v1, "capacity");
    GetPairWhen(p1, g2, "maxPrice", v2, "capacity");
    GetPairWhen(p2, g3, "brand", s.brand, "capacity");
    GetPairWhen(p3, g4, "category", s.category, "capacity");
    params := SetWhen(p4, g5, "capacity", s.capacity);
    assert p1 == PairWhen(g1, "minPrice", v1);
    UrlParamsDescribe(s);
    url := "/Product?" + Url.Serialize(params);
  }

  lemma PriceFieldRoundTrip(params: seq<(string, string)>, name: string, p: Price, default: Price)
    requires Url.Get(params, name) == (if p != default then Some(PriceText(p)) else None)
    ensures PriceOr(params, name, default) == p
  {
    PriceTextRoundTrip(p);
    assert PriceText(p) != "";
  }

  lemma TextFieldRoundTrip(params: seq<(string, string)>, name: string, v: string, default: string)
    requires v != "" && Url.Get(params, name) == (if v != default then Some(v) else None)
    ensures TextOr(params, name, default) == v
  {
  }

  /** Reading back what the address says restores the state, as long as no
      text field is empty. */
  lemma ParseBuildRoundTrip(params: seq<(string, string)>, s: FilterState)
    requires Describes(params, s)
    requires s.brand != "" && s.category != "" && s.capacity != ""
    ensures ParseQuery(params) == s
  {
    NamesDistinct();
    assert Url.Get(params, "minPrice") == Expected(s, "minPrice");
    PriceFieldRoundTrip(params, "minPrice", s.minPrice, DefaultMin);
    assert Url.Get(params, "maxPrice") == Expected(s, "maxPrice");
    PriceFieldRoundTrip(params, "maxPrice", s.maxPrice, DefaultMax);
    assert Url.Get(params, "brand") == Expected(s, "brand");
    TextFieldRoundTrip(params, "brand", s.brand, AllBrands);
    assert Url.Get(params, "category") == Expected(s, "category");
    TextFieldRoundTrip(params, "category", s.category, AllTypes);
    assert Url.Get(params, "capacity") == Expected(s, "capacity");
    TextFieldRoundTrip(params, "capacity", s.capacity, AllCapacities);
  }

  /** An empty text field is written out but read back as the sentinel. */
  lemma EmptyBrandIsLost(params: seq<(string, string)>, s: FilterState)
    requires Describes(params, s) && s.brand == ""
    ensures ParseQuery(params).brand == AllBrands
  {
    NamesDistinct();
    assert Url.Get(params, "brand") == Expected(s, "brand");
  }

  /** `handleResetFilters`: every field back to its default; the address is
      then `/Product` with no query. */
  function Reset(): (s: FilterState)
    ensures Describes([], s)
    ensures ParseQuery([]) == s
  {
    Defaults
  }

  // ---------------------------------------------------------------------
  // The request sent to the catalog

  /** The `filters` argument of `fetchProducts`; an absent or empty text
      field is `""`. */
  datatype Filters = Filters(priceRange: Option<(Price, Price)>, brand: string, category: string, capacity: string)

  /** `{ priceRange, brand, category, capacity }` from the page state. */
  function FiltersOf(s: FilterState): Filters
  {
    Filters(Some((s.minPrice, s.maxPrice)), s.brand, s.category, s.capacity)
  }

  datatype RequestParams = RequestParams(
    minPrice: Option<Price>, maxPrice: Option<Price>,
    brand: Option<string>, category: Option<string>, capacity: Option<string>)

  /** What `fetchProducts` sends for a given `filters` argument: both bounds
      exactly when there is a price range, and each text field exactly when it
      is neither empty nor its sentinel. */
  predicate Requests(filters: Filters, params: RequestParams)
  {
    && (params.minPrice.Some? <==> filters.priceRange.Some?)
    && (params.maxPrice.Some? <==> filters.priceRange.Some?)
    && (filters.priceRange.Some? ==>
          params.minPrice.value == filters.priceRange.value.0 && params.maxPrice.value == filters.priceRange.value.1)
    && (params.brand.Some? <==> filters.brand != "" && filters.brand != AllBrands)
    && (params.category.Some? <==> filters.category != "" && filters.category != AllTypes)
    && (params.capacity.Some? <==> filters.capacity != "" && filters.capacity != AllCapacities)
    && (params.brand.Some? ==> params.brand.value == filters.brand)
    && (params.category.Some? ==> params.category.value == filters.category)
    && (params.capacity.Some? ==> params.capacity.value == filters.capacity)
  }

  /** `fetchProducts` filling its `params` object field by field. */
  method RequestParamsFor(filters: Filters) returns (params: RequestParams)
    ensures Requests(filters, params)
  {
    params := RequestParams(None, None, None, None, None);
    if filters.priceRange.Some? {
      params := params.(minPrice := Some(filters.priceRange.value.0));
      params := params.(maxPrice := Some(filters.priceRange.value.1));
    }
    if filters.brand != "" && filters.brand != AllBrands { params := params.(brand := Some(filters.brand)); }
    if filters.category != "" && filters.category != AllTypes { params := params.(category := Some(filters.category)); }
    if filters.capacity != "" && filters.capacity != AllCapacities { params := params.(capacity := Some(filters.capacity)); }
  }

  /** No sentinel and no empty value is ever sent. */
  predicate SentinelFree(params: RequestParams)
  {
    && (params.brand.Some? ==> params.brand.value !in {"", AllBrands})
    && (params.category.Some? ==> params.category.value !in {"", AllTypes})
    && (params.capacity.Some? ==> params.capacity.value !in {"", AllCapacities})
  }

  lemma RequestsAreSentinelFree(filters: Filters, params: RequestParams)
    requires Requests(filters, params)
    ensures SentinelFree(params)
  {
  }

  /** The page state always sends both bounds. */
  lemma PageStateSendsBounds(s: FilterState, params: RequestParams)
    requires Requests(FiltersOf(s), params)
    ensures params.minPrice == Some(s.minPrice) && params.maxPrice == Some(s.maxPrice)
  {
  }

  /** After a reset the request carries the default price range and nothing
      else. */
  lemma ResetRequest(params: RequestParams)
    requires Requests(FiltersOf(Reset()), params)
    ensures params == RequestParams(Some(DefaultMin), Some(DefaultMax), None, None, None)
  {
  }
}
