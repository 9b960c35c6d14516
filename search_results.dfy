/** The search results page: it reads `query`, `category` and `brand` from
    its address, asks the list endpoint for matching products, offers
    filter controls that each navigate to a new single-key address, and
    titles the page after the first given criterion. */
module SearchResults {
  import opened Optional
  import Url
  import opened DriveImage

  /** The three criteria, each `searchParams.get(name) || ''`. */
  datatype Criteria = Criteria(query: string, category: string, brand: string)

  function CriteriaOf(address: seq<(string, string)>): (c: Criteria)
    ensures c.query == Url.Get(address, "query").GetOr("")
    ensures c.category == Url.Get(address, "category").GetOr("")
    ensures c.brand == Url.Get(address, "brand").GetOr("")
  {
    Criteria(Url.Get(address, "query").GetOr(""),
             Url.Get(address, "category").GetOr(""),
             Url.Get(address, "brand").GetOr(""))
  }

  // ---------------------------------------------------------------------
  // The request parameters

  /** One parameter, sent only when its value is not empty. */
  function Given(name: string, value: string): seq<(string, string)>
  {
    if value != "" then [(name, value)] else []
  }

  /** The parameters of the product request, in the order they are set. */
  function RequestPairs(c: Criteria): seq<(string, string)>
  {
    Given("search", c.query) + Given("category", c.category) + Given("brand", c.brand)
  }

  /** The value a request parameter carries for a criterion. */
  function Sent(value: string): Option<string>
  {
    if value != "" then Some(value) else None
  }

  /** The request holds the query text as `search`, the category and the
      brand, each only when it is not empty, and nothing else. */
  lemma RequestPairsMeaning(c: Criteria)
    ensures Url.Get(RequestPairs(c), "search") == Sent(c.query)
    ensures Url.Get(RequestPairs(c), "category") == Sent(c.category)
    ensures Url.Get(RequestPairs(c), "brand") == Sent(c.brand)
    ensures forall name :: name != "search" && name != "category" && name != "brand" ==>
      Url.Get(RequestPairs(c), name).None?
    ensures forall k :: 0 <= k < |RequestPairs(c)| ==> RequestPairs(c)[k].1 != ""
  {
    var s, g, b := Given("search", c.query), Given("category", c.category), Given("brand", c.brand);
    forall name
      ensures Url.Get(RequestPairs(c), name) ==
        if name == "search" then Sent(c.query)
        else if name == "category" then Sent(c.category)
        else if name == "brand" then Sent(c.brand)
        else None
    {
      GivenGet("search", c.query, name);
      GivenGet("category", c.category, name);
      GivenGet("brand", c.brand, name);
      Url.GetConcat(s, g, name);
      Url.GetConcat(s + g, b, name);
    }
  }

  lemma GivenGet(key: string, value: string, name: string)
    ensures Url.Get(Given(key, value), name) == if key == name then Sent(value) else None
  {
    if value != "" {
      Url.GetSingle((key, value), name);
    }
  }

  /** `const params = {}; if (query) params.search = query; …` */
  method RequestParams(c: Criteria) returns (params: seq<(string, string)>)
    ensures params == RequestPairs(c)
  {
    params := [];
    if c.query != "" {
      params := Url.Set(params, "search", c.query);
    }
    if c.category != "" {
      params := Url.Set(params, "category", c.category);
    }
    if c.brand != "" {
      params := Url.Set(params, "brand", c.brand);
    }
    assert params == RequestPairs(c);
  }

  /** The parameters the list endpoint reads. */
  const ListKeys := ["category", "brand", "minPrice", "maxPrice", "capacity", "sortBy", "page", "limit"]

  /** The list endpoint reads no `search` parameter: what the page asks
      for does not depend on its query text. */
  lemma QueryTextNotRead(c: Criteria)
    ensures forall k :: 0 <= k < |ListKeys| ==>
      Url.Get(RequestPairs(c), ListKeys[k]) == Url.Get(RequestPairs(c.(query := "")), ListKeys[k])
  {
    RequestPairsMeaning(c);
    RequestPairsMeaning(c.(query := ""));
  }

  // ---------------------------------------------------------------------
  // The filter controls

  /** The address key a control sets: `category`, `brand`, or `query` for
      the search box; no key for any other kind. */
  function FilterKey(kind: string): Option<string>
  {
    if kind == "category" then Some("category")
    else if kind == "brand" then Some("brand")
    else if kind == "search" then Some("query")
    else None
  }

  function FilterPairs(kind: string, value: string): seq<(string, string)>
  {
    match FilterKey(kind)
    case Some(key) => [(key, value)]
    case None => []
  }

  /** `handleFilter`: a fresh parameter list with at most the one key,
      then the address `/search?…`. */
  method HandleFilter(kind: string, value: string) returns (params: seq<(string, string)>, target: string)
    ensures params == FilterPairs(kind, value)
    ensures target == "/search?" + Url.Serialize(params)
  {
    params := [];
    if kind == "category" {
      params := Url.Set(params, "category", value);
    } else if kind == "brand" {
      params := Url.Set(params, "brand", value);
    } else if kind == "search" {
      params := Url.Set(params, "query", value);
    }
    target := "/search?" + Url.Serialize(params);
  }

  /** A control's new address holds exactly its own key with the chosen
      value; every other criterion is dropped. */
  lemma FilterKeepsOneKey(kind: string, value: string)
    requires FilterKey(kind).Some?
    ensures var key := FilterKey(kind).value;
      Url.Get(FilterPairs(kind, value), key) == Some(value) &&
      forall other :: other != key ==> Url.Get(FilterPairs(kind, value), other).None?
    ensures |FilterPairs(kind, value)| == 1
  {
  }

  /** Any other kind of control leads to the bare `/search?`. */
  lemma UnknownFilterClears(kind: string, value: string)
    requires FilterKey(kind).None?
    ensures FilterPairs(kind, value) == [] && "/search?" + Url.Serialize(FilterPairs(kind, value)) == "/search?"
  {
  }

  /** The criteria read back from a control's new address (decoding
      modelled away): the control's own criterion and nothing else. */
  lemma FilterThenRead(kind: string, value: string)
    ensures var c := CriteriaOf(FilterPairs(kind, value));
      c.query == (if kind == "search" then value else "") &&
      c.category == (if kind == "category" then value else "") &&
      c.brand == (if kind == "brand" then value else "")
  {
    if FilterKey(kind).Some? {
      var pair := (FilterKey(kind).value, value);
      Url.GetSingle(pair, "query");
      Url.GetSingle(pair, "category");
      Url.GetSingle(pair, "brand");
    }
  }

  // ---------------------------------------------------------------------
  // The heading

  /** The first non-empty text of a list, or "" when there is none. */
  function FirstNonEmpty(texts: seq<string>): (r: string)
    ensures r != "" ==> exists k :: 0 <= k < |texts| && texts[k] == r && forall j :: 0 <= j < k ==> texts[j] == ""
    ensures r == "" ==> forall k :: 0 <= k < |texts| ==> texts[k] == ""
  {
    if texts == [] then ""
    else if texts[0] != "" then texts[0]
    else
      var r := FirstNonEmpty(texts[1..]);
      assert forall k :: 1 <= k < |texts| ==> texts[k] == texts[1..][k - 1];
      r
  }

  /** `query || category || brand || fallback` */
  function Subject(c: Criteria, fallback: string): string
  {
    FirstNonEmpty([c.query, c.category, c.brand, fallback])
  }

  /** The subject is the query text when there is one, otherwise the
      category, otherwise the brand, otherwise the fallback. */
  lemma SubjectChoice(c: Criteria, fallback: string)
    ensures c.query != "" ==> Subject(c, fallback) == c.query
    ensures c.query == "" && c.category != "" ==> Subject(c, fallback) == c.category
    ensures c.query == "" && c.category == "" && c.brand != "" ==> Subject(c, fallback) == c.brand
    ensures c.query == "" && c.category == "" && c.brand == "" ==> Subject(c, fallback) == fallback
  {
    var texts := [c.query, c.category, c.brand, fallback];
    assert texts[1..] == [c.category, c.brand, fallback];
    assert texts[1..][1..] == [c.brand, fallback];
    assert texts[1..][1..][1..] == [fallback];
    assert FirstNonEmpty(texts[1..][1..][1..]) == fallback;
    assert FirstNonEmpty(texts[1..][1..]) == if c.brand != "" then c.brand else fallback;
    assert FirstNonEmpty(texts[1..]) == if c.category != "" then c.category else FirstNonEmpty(texts[1..][1..]);
  }

  /** The heading names the query text when there is one, otherwise the
      category, otherwise the brand, otherwise all products. */
  lemma HeadingChoice(c: Criteria)
    ensures c.query != "" ==> Heading(c) == "Search Results for \"" + c.query + "\""
    ensures c.query == "" && c.category != "" ==> Heading(c) == "Search Results for \"" + c.category + "\""
    ensures c.query == "" && c.category == "" && c.brand != "" ==> Heading(c) == "Search Results for \"" + c.brand + "\""
    ensures c.query == "" && c.category == "" && c.brand == "" ==> Heading(c) == "Search Results for \"All Products\""
  {
    SubjectChoice(c, "All Products");
  }

  /** The empty-result message names the same criterion, or "your search". */
  lemma NoResultsChoice(c: Criteria)
    ensures c.query != "" ==> NoResultsMessage(c) == "No products match \"" + c.query + "\". Try adjusting your search terms."
    ensures c.query == "" && c.category != "" ==> NoResultsMessage(c) == "No products match \"" + c.category + "\". Try adjusting your search terms."
    ensures c.query == "" && c.category == "" && c.brand != "" ==> NoResultsMessage(c) == "No products match \"" + c.brand + "\". Try adjusting your search terms."
    ensures c.query == "" && c.category == "" && c.brand == "" ==> NoResultsMessage(c) == "No products match \"" + "your search" + "\". Try adjusting your search terms."
  {
    SubjectChoice(c, "your search");
  }

  /** The heading of a result list, and the message when it is empty. */
  function Heading(c: Criteria): string
  {
    "Search Results for \"" + Subject(c, "All Products") + "\""
  }

  function NoResultsMessage(c: Criteria): string
  {
    "No products match \"" + Subject(c, "your search") + "\". Try adjusting your search terms."
  }

  /** The image addresses of the result cards. */
  function CardImages(images: seq<ImageSource>): (r: seq<string>)
    ensures |r| == |images| && forall k :: 0 <= k < |images| ==> r[k] == ImageUrl(images[k])
  {
    seq(|images|, k requires 0 <= k < |images| => ImageUrl(images[k]))
  }
}
