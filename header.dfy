/** The site header's search box: the suggestion list drawn from the catalog
    response, and the links it navigates to. */
module Header {
  import opened Optional
  import opened Text
  import opened Seqs
  import Url

  /** The fields of a catalog entry the suggestions read; `brand` and
      `description` may be missing. */
  datatype Listing = Listing(name: string, brand: Option<string>, description: Option<string>)

  /** `field?.toLowerCase().includes(query.toLowerCase())` on an optional
      field: a missing field never matches. */
  predicate FieldMentions(field: Option<string>, query: string)
  {
    field.Some? && ContainsIgnoreCase(field.value, query)
  }

  predicate Mentions(p: Listing, query: string)
  {
    ContainsIgnoreCase(p.name, query) || FieldMentions(p.brand, query) || FieldMentions(p.description, query)
  }

  /** `products.filter(product => Mentions(product, query))` */
  function Matching(products: seq<Listing>, query: string): (r: seq<Listing>)
    ensures forall p :: p in r <==> p in products && Mentions(p, query)
  {
    if products == [] then []
    else
      assert forall p :: p in products <==> p in products[..|products| - 1] || p == products[|products| - 1];
      Matching(products[..|products| - 1], query) +
        (if Mentions(products[|products| - 1], query) then [products[|products| - 1]] else [])
  }

  /** Each mentioning entry is kept as often as the response holds it. */
  lemma {:induction false} MatchingCount(products: seq<Listing>, query: string, p: Listing)
    ensures multiset(Matching(products, query))[p] == if Mentions(p, query) then multiset(products)[p] else 0
  {
    if products != [] {
      var init, last := products[..|products| - 1], products[|products| - 1];
      MatchingCount(init, query, p);
      FilterCountStep(products, Matching(init, query), Matching(products, query),
                      Mentions(last, query), Mentions(p, query), p);
    }
  }

  lemma {:induction false} MatchingSubsequence(products: seq<Listing>, query: string)
    ensures IsSubsequence(Matching(products, query), products)
  {
    if products != [] {
      var init, last := products[..|products| - 1], products[|products| - 1];
      MatchingSubsequence(init, query);
      var r := Matching(init, query);
      if Mentions(last, query) {
        assert (r + [last])[..|r + [last]| - 1] == r;
      } else {
        assert r + [] == r;
      }
    }
  }

  /** The suggestion effect: nothing for an empty query, otherwise the first
      five matching entries of the response. */
  function Suggestions(products: seq<Listing>, query: string): (r: seq<Listing>)
    ensures |r| <= 5
    ensures query == "" ==> r == []
    ensures forall i :: 0 <= i < |r| ==> Mentions(r[i], query)
    ensures IsSubsequence(r, products)
    ensures query != "" ==> var m := Matching(products, query);
                            r == m[..if |m| < 5 then |m| else 5]
  {
    if query == "" then []
    else
      var all := Matching(products, query);
      var r := if |all| <= 5 then all else all[..5];
      MatchingSubsequence(products, query);
      PrefixIsSubsequence(all, |r|);
      assert all[..|r|] == r;
      SubsequenceTransitive(r, all, products);
      assert forall i :: 0 <= i < |r| ==> r[i] in all;
      r
  }

  /** Fewer than five suggestions means no matching entry was left out. */
  lemma SuggestionsComplete(products: seq<Listing>, query: string)
    requires query != "" && |Suggestions(products, query)| < 5
    ensures forall p :: p in products && Mentions(p, query) ==> p in Suggestions(products, query)
  {
  }

  datatype SearchBox = SearchBox(searchQuery: string, suggestions: seq<Listing>)

  /** `/search?query=<encoded>` */
  function SearchLink(text: string): (url: string)
    ensures url == "/search?query=" + Url.EncodeUriComponent(text)
    ensures '&' !in url[|"/search?query="|..] && '#' !in url[|"/search?query="|..]
  {
    Url.EncodedHasNoSeparators(text);
    var url := "/search?query=" + Url.EncodeUriComponent(text);
    assert url[|"/search?query="|..] == Url.EncodeUriComponent(text);
    url
  }

  /** `handleSearch`: Enter with a non-empty query navigates to the search
      page and clears the box; any other key, or an empty box, does nothing. */
  function HandleSearch(box: SearchBox, key: string): (r: (SearchBox, Option<string>))
    ensures key == "Enter" && box.searchQuery != "" ==>
              r.0 == SearchBox("", []) && r.1 == Some(SearchLink(box.searchQuery))
    ensures !(key == "Enter" && box.searchQuery != "") ==> r == (box, None)
  {
    if key == "Enter" && box.searchQuery != "" then (SearchBox("", []), Some(SearchLink(box.searchQuery)))
    else (box, None)
  }

  /** `handleSuggestionClick`: the box takes the entry's name and the page
      goes to the search for it. */
  function HandleSuggestionClick(box: SearchBox, suggestion: Listing): (r: (SearchBox, string))
    ensures r.0 == SearchBox(suggestion.name, []) && r.1 == SearchLink(suggestion.name)
  {
    (SearchBox(suggestion.name, []), SearchLink(suggestion.name))
  }
}
