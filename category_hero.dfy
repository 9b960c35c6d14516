/** The "Shop by Categories" page: the `category` query parameter is a
    slug that the page turns back into a category name, the category
    buttons link to slugs, and the fetched products are filtered again on
    the client by their trimmed category. */
module CategoryHero {
  import opened Optional
  import opened Text
  import opened Seqs
  import Url
  import CheckboxFilters
  import opened DriveImage

  // ---------------------------------------------------------------------
  // From a slug back to a category name

  /** `word.charAt(0).toUpperCase() + word.slice(1)` */
  function Capitalize(w: string): (r: string)
    ensures |r| == |w|
    ensures w != [] ==> r[0] == UpperChar(w[0]) && r[1..] == w[1..]
  {
    if w == [] then [] else [UpperChar(w[0])] + w[1..]
  }

  function CapitalizeAll(words: seq<string>): (r: seq<string>)
    ensures |r| == |words| && forall i :: 0 <= i < |words| ==> r[i] == Capitalize(words[i])
  {
    seq(|words|, i requires 0 <= i < |words| => Capitalize(words[i]))
  }

  /** `formattedCategory`: empty for an empty slug; otherwise every
      '-'-separated word capitalised, the words joined by single spaces,
      the result trimmed. */
  function Formatted(selected: string): string
  {
    if selected == "" then ""
    else Trim(Join(CapitalizeAll(Split(selected, '-')), " "))
  }

  /** `query.get('category') || ''` */
  function SelectedSlug(query: seq<(string, string)>): (r: string)
    ensures Url.Get(query, "category").Some? ==> r == Url.Get(query, "category").value
    ensures Url.Get(query, "category").None? ==> r == ""
  {
    Url.Get(query, "category").GetOr("")
  }

  // ---------------------------------------------------------------------
  // From a category name to a slug

  /** `replace(/\s+/g, '-')`: every run of white space becomes one '-'. */
  function CollapseSpaces(s: string): string
  {
    if s == [] then []
    else
      var init, c := s[..|s| - 1], s[|s| - 1];
      if !IsSpace(c) then CollapseSpaces(init) + [c]
      else if init != [] && IsSpace(init[|init| - 1]) then CollapseSpaces(init)
      else CollapseSpaces(init) + "-"
  }

  /** No white space is left, and the text gets no longer. */
  lemma {:induction false} CollapseSpacesMeaning(s: string)
    ensures var r := CollapseSpaces(s); |r| <= |s| && forall k :: 0 <= k < |r| ==> !IsSpace(r[k])
  {
    if s != [] {
      CollapseSpacesMeaning(s[..|s| - 1]);
    }
  }

  /** The button's slug: `cat.toLowerCase().replace(/\s+/g, '-')`. */
  function Slug(cat: string): string
  {
    CollapseSpaces(Lower(cat))
  }

  /** The address a category button navigates to. */
  function ButtonTarget(cat: string): string
  {
    "?category=" + Slug(cat)
  }

  lemma {:induction false} CollapseAppendWord(x: string, b: string)
    requires forall k :: 0 <= k < |b| ==> !IsSpace(b[k])
    ensures CollapseSpaces(x + b) == CollapseSpaces(x) + b
    decreases |b|
  {
    if b == [] {
      assert x + b == x;
    } else {
      var b', c := b[..|b| - 1], b[|b| - 1];
      CollapseAppendWord(x, b');
      assert (x + b)[..|x + b| - 1] == x + b';
      assert !IsSpace(c);
      assert CollapseSpaces(x + b) == CollapseSpaces(x + b') + [c];
      assert b' + [c] == b;
    }
  }

  lemma CollapseAppendSpace(x: string)
    requires x == [] || !IsSpace(x[|x| - 1])
    ensures CollapseSpaces(x + " ") == CollapseSpaces(x) + "-"
  {
    var s := x + " ";
    assert s[..|s| - 1] == x;
    assert IsSpace(s[|s| - 1]);
    assert !(x != [] && IsSpace(x[|x| - 1]));
    assert CollapseSpaces(s) == CollapseSpaces(x) + "-";
  }

  /** Single spaces between words without white space become single '-'. */
  lemma {:induction false} CollapseJoin(words: seq<string>)
    requires |words| >= 1
    requires forall i :: 0 <= i < |words| ==> words[i] != [] && forall k :: 0 <= k < |words[i]| ==> !IsSpace(words[i][k])
    ensures CollapseSpaces(Join(words, " ")) == Join(words, "-")
  {
    if |words| == 1 {
      CollapseAppendWord([], words[0]);
      assert [] + words[0] == words[0];
    } else {
      var init, last := words[..|words| - 1], words[|words| - 1];
      CollapseJoin(init);
      JoinEnds(init, " ");
      CollapseAppendSpace(Join(init, " "));
      CollapseAppendWord(Join(init, " ") + " ", last);
    }
  }

  // ---------------------------------------------------------------------
  // When the slug comes back as the same category

  /** A word that survives lower-casing and then capitalising: no white
      space and no '-', a first character that is not a lower-case letter,
      and no upper-case letter after it. */
  predicate TitleWord(w: string)
  {
    |w| >= 1 && !IsLowerAscii(w[0]) &&
    (forall k :: 0 <= k < |w| ==> !IsSpace(w[k]) && w[k] != '-') &&
    (forall k :: 1 <= k < |w| ==> !IsUpperAscii(w[k]))
  }

  /** Title-cased, single-spaced words (or nothing at all). */
  predicate TitleCased(cat: string)
  {
    cat == "" || forall k :: 0 <= k < |Split(cat, ' ')| ==> TitleWord(Split(cat, ' ')[k])
  }

  lemma CapitalizeLower(w: string)
    requires TitleWord(w)
    ensures Capitalize(Lower(w)) == w
  {
    assert Capitalize(Lower(w))[0] == w[0];
    assert Capitalize(Lower(w))[1..] == w[1..];
  }

  /** Lower-casing a title word leaves no white space and no '-' in it. */
  lemma LoweredWord(w: string)
    requires TitleWord(w)
    ensures Lower(w) != [] && forall k :: 0 <= k < |w| ==> !IsSpace(Lower(w)[k]) && Lower(w)[k] != '-'
  {
    forall k | 0 <= k < |w|
      ensures !IsSpace(Lower(w)[k]) && Lower(w)[k] != '-'
    {
      if IsUpperAscii(w[k]) {
        assert IsLowerAscii(Lower(w)[k]);
      }
    }
  }

  function LowerAll(words: seq<string>): (r: seq<string>)
    ensures |r| == |words| && forall i :: 0 <= i < |words| ==> r[i] == Lower(words[i])
  {
    seq(|words|, i requires 0 <= i < |words| => Lower(words[i]))
  }

  /** The slug of title words joined by spaces: the lower-cased words
      joined by '-'. */
  lemma SlugOfTitleWords(words: seq<string>)
    requires |words| >= 1 && forall i :: 0 <= i < |words| ==> TitleWord(words[i])
    ensures Slug(Join(words, " ")) == Join(LowerAll(words), "-")
  {
    var lowered := LowerAll(words);
    LowerJoin(words, " ");
    assert Lower(Join(words, " ")) == Join(lowered, " ");
    forall i | 0 <= i < |words|
      ensures lowered[i] != [] && forall k :: 0 <= k < |lowered[i]| ==> !IsSpace(lowered[i][k])
    {
      LoweredWord(words[i]);
    }
    CollapseJoin(lowered);
    assert Slug(Join(words, " ")) == CollapseSpaces(Join(lowered, " "));
  }

  /** Capitalising lower-cased title words gives them back. */
  lemma CapitalizeLowerAll(words: seq<string>)
    requires forall i :: 0 <= i < |words| ==> TitleWord(words[i])
    ensures CapitalizeAll(LowerAll(words)) == words
    ensures forall i :: 0 <= i < |words| ==> LowerAll(words)[i] != [] && '-' !in LowerAll(words)[i]
  {
    var lowered := LowerAll(words);
    forall i | 0 <= i < |words|
      ensures lowered[i] != [] && '-' !in lowered[i] && CapitalizeAll(lowered)[i] == words[i]
    {
      LoweredWord(words[i]);
      CapitalizeLower(words[i]);
    }
  }

  /** Lower-cased title words joined by '-' decode to the title words
      joined by spaces. */
  lemma FormattedOfLoweredWords(words: seq<string>)
    requires |words| >= 1 && forall i :: 0 <= i < |words| ==> TitleWord(words[i])
    ensures Formatted(Join(LowerAll(words), "-")) == Join(words, " ")
  {
    var lowered := LowerAll(words);
    CapitalizeLowerAll(words);
    SplitJoin(lowered, '-');
    JoinEnds(lowered, "-");
    JoinEnds(words, " ");
    TrimUnchanged(Join(words, " "));
  }

  /** Title-cased words joined by spaces come back from their slug. */
  lemma TitleWordsRoundTrip(words: seq<string>)
    requires |words| >= 1 && forall i :: 0 <= i < |words| ==> TitleWord(words[i])
    ensures Formatted(Slug(Join(words, " "))) == Join(words, " ")
  {
    SlugOfTitleWords(words);
    FormattedOfLoweredWords(words);
  }

  /** A title-cased category is what its button's slug decodes to. */
  lemma TitleCasedRoundTrip(cat: string)
    requires TitleCased(cat)
    ensures Formatted(Slug(cat)) == cat
  {
    if cat != "" {
      JoinSplit(cat, ' ');
      TitleWordsRoundTrip(Split(cat, ' '));
    }
  }

  lemma CapitalizedHasNoHyphen(w: string)
    requires '-' !in w
    ensures '-' !in Capitalize(w)
  {
    if w != [] {
      assert Capitalize(w) == [UpperChar(w[0])] + w[1..];
    }
  }

  /** A decoded slug never holds a '-'. */
  lemma FormattedHasNoHyphen(selected: string)
    ensures '-' !in Formatted(selected)
  {
    if selected != "" {
      var parts := Split(selected, '-');
      var words := CapitalizeAll(parts);
      forall i | 0 <= i < |words|
        ensures '-' !in words[i]
      {
        CapitalizedHasNoHyphen(parts[i]);
      }
      JoinAvoids(words, " ", '-');
      TrimAvoids(Join(words, " "), '-');
    }
  }

  /** A category with a '-' in it never comes back from its slug, so its
      button is never highlighted. */
  lemma HyphenNeverRoundTrips(cat: string)
    requires '-' in cat
    ensures Formatted(Slug(cat)) != cat
  {
    FormattedHasNoHyphen(Slug(cat));
  }

  // The converse: only title-cased categories come back.

  lemma CapitalizedTitleWord(p: string)
    requires p != [] && forall k :: 0 <= k < |p| ==> !IsSpace(p[k]) && p[k] != '-' && !IsUpperAscii(p[k])
    ensures TitleWord(Capitalize(p))
  {
    var w := Capitalize(p);
    assert !IsSpace(w[0]) by {
      if IsLowerAscii(p[0]) {
        assert IsUpperAscii(w[0]);
      }
    }
    assert forall k :: 1 <= k < |w| ==> w[k] == p[k];
  }

  /** Title words joined by single spaces are title-cased. */
  lemma JoinedTitleWords(words: seq<string>)
    requires |words| >= 1 && forall i :: 0 <= i < |words| ==> TitleWord(words[i])
    ensures TitleCased(Join(words, " "))
  {
    forall i | 0 <= i < |words|
      ensures ' ' !in words[i]
    {
      assert forall k :: 0 <= k < |words[i]| ==> words[i][k] != ' ';
    }
    SplitJoin(words, ' ');
  }

  /** The pieces of a slug without white space, upper-case letters or
      doubled '-' capitalise to title words. */
  lemma CapitalizedPieces(x: string, a: nat, b: nat)
    requires forall k :: 0 <= k < |x| ==> !IsSpace(x[k]) && !IsUpperAscii(x[k])
    requires NoDoubled(x, '-')
    requires a <= b <= |Split(x, '-')|
    requires forall i :: a <= i < b ==> Split(x, '-')[i] != []
    ensures forall i :: 0 <= i < b - a ==> TitleWord(CapitalizeAll(Split(x, '-'))[a..b][i])
  {
    var parts := Split(x, '-');
    SplitPartsWithin(x, '-');
    forall i | 0 <= i < b - a
      ensures TitleWord(CapitalizeAll(parts)[a..b][i])
    {
      var p := parts[a + i];
      forall k | 0 <= k < |p|
        ensures !IsSpace(p[k]) && p[k] != '-' && !IsUpperAscii(p[k])
      {
        assert p[k] in x;
      }
      CapitalizedTitleWord(p);
    }
  }

  /** When the pieces between an empty first and an empty last piece are
      non-empty and their join is title-cased, the trimmed join is too. */
  lemma TrimmedCore(caps: seq<string>, a: nat, b: nat)
    requires a <= 1 && |caps| - 1 <= b <= |caps| && a < b
    requires a == 1 ==> caps[0] == ""
    requires b == |caps| - 1 ==> caps[|caps| - 1] == ""
    requires forall i :: 0 <= i < b - a ==> caps[a..b][i] != []
    requires var core := caps[a..b]; !IsSpace(core[0][0]) && !IsSpace(core[b - a - 1][|core[b - a - 1]| - 1])
    requires TitleCased(Join(caps[a..b], " "))
    ensures TitleCased(Trim(Join(caps, " ")))
  {
    TrimJoinEmptyEnds(caps, a, b);
  }

  /** What the trimmed join needs of the capitalised pieces from `a` to `b`:
      they are non-empty, the first and the last do not end in white space,
      and their join is title-cased. */
  lemma CoreFacts(x: string, a: nat, b: nat)
    requires forall k :: 0 <= k < |x| ==> !IsSpace(x[k]) && !IsUpperAscii(x[k])
    requires NoDoubled(x, '-')
    requires a < b <= |Split(x, '-')|
    requires forall i :: a <= i < b ==> Split(x, '-')[i] != []
    ensures var core := CapitalizeAll(Split(x, '-'))[a..b];
      && (forall i :: 0 <= i < b - a ==> core[i] != [])
      && !IsSpace(core[0][0]) && !IsSpace(core[b - a - 1][|core[b - a - 1]| - 1])
      && TitleCased(Join(core, " "))
  {
    var core := CapitalizeAll(Split(x, '-'))[a..b];
    CapitalizedPieces(x, a, b);
    TitleWordEnds(core);
    JoinedTitleWords(core);
  }

  /** Title words are non-empty, and neither the first nor the last one
      has white space at its end. */
  lemma TitleWordEnds(words: seq<string>)
    requires |words| >= 1 && forall i :: 0 <= i < |words| ==> TitleWord(words[i])
    ensures forall i :: 0 <= i < |words| ==> words[i] != []
    ensures !IsSpace(words[0][0]) && !IsSpace(words[|words| - 1][|words[|words| - 1]| - 1])
  {
    var first, last := words[0], words[|words| - 1];
    assert TitleWord(first) && TitleWord(last);
  }

  /** Decoding a slug without white space, upper-case letters or doubled
      '-' gives a title-cased category. */
  lemma FormattedTitleCased(x: string)
    requires forall k :: 0 <= k < |x| ==> !IsSpace(x[k]) && !IsUpperAscii(x[k])
    requires NoDoubled(x, '-')
    ensures TitleCased(Formatted(x))
  {
    if x != "" {
      var parts := Split(x, '-');
      var n := |parts|;
      SplitInteriorNonEmpty(x, '-');
      var a: nat := if parts[0] == [] then 1 else 0;
      var b: nat := if n > 1 && parts[n - 1] == [] then n - 1 else n;
      if a < b {
        FormattedWords(x, a, b);
      } else {
        FormattedDash(x);
      }
    }
  }

  /** The pieces from `a` to `b` are the non-empty ones of the slug. */
  lemma FormattedWords(x: string, a: nat, b: nat)
    requires x != ""
    requires forall k :: 0 <= k < |x| ==> !IsSpace(x[k]) && !IsUpperAscii(x[k])
    requires NoDoubled(x, '-')
    requires var parts := Split(x, '-');
      a == (if parts[0] == [] then 1 else 0) &&
      b == (if |parts| > 1 && parts[|parts| - 1] == [] then |parts| - 1 else |parts|) &&
      a < b && forall i :: 0 < i < |parts| - 1 ==> parts[i] != []
    ensures TitleCased(Formatted(x))
  {
    var parts := Split(x, '-');
    CoreBounds(parts, a, b);
    CoreFacts(x, a, b);
    TrimmedCore(CapitalizeAll(parts), a, b);
  }

  /** Between a dropped empty first piece and a dropped empty last piece,
      every piece is non-empty; the dropped ones capitalise to "". */
  lemma CoreBounds(parts: seq<string>, a: nat, b: nat)
    requires |parts| >= 1
    requires a == (if parts[0] == [] then 1 else 0)
    requires b == (if |parts| > 1 && parts[|parts| - 1] == [] then |parts| - 1 else |parts|)
    requires a < b && forall i :: 0 < i < |parts| - 1 ==> parts[i] != []
    ensures a <= 1 && |parts| - 1 <= b <= |parts|
    ensures forall i :: a <= i < b ==> parts[i] != []
    ensures a == 1 ==> CapitalizeAll(parts)[0] == ""
    ensures b == |parts| - 1 ==> CapitalizeAll(parts)[|parts| - 1] == ""
  {
  }

  /** A slug whose only pieces are empty is a lone '-', which decodes to "". */
  lemma FormattedDash(x: string)
    requires x != "" && NoDoubled(x, '-')
    requires var parts := Split(x, '-');
      (if parts[0] == [] then 1 else 0) >=
      (if |parts| > 1 && parts[|parts| - 1] == [] then |parts| - 1 else |parts|)
    ensures TitleCased(Formatted(x))
  {
    var parts := Split(x, '-');
    JoinSplit(x, '-');
    assert |parts| == 2 && parts[0] == [] && parts[1] == [];
    var caps := CapitalizeAll(parts);
    assert caps == ["", ""];
    assert Join(caps, " ") == Join(caps[..1], " ") + " " + caps[1] == " ";
    assert Trim(" ") == "" by {
      assert IsSpace(" "[0]);
    }
  }

  lemma {:induction false} CollapseChars(s: string)
    ensures forall c :: c in CollapseSpaces(s) ==> c in s || c == '-'
  {
    if s != [] {
      CollapseChars(s[..|s| - 1]);
      assert s == s[..|s| - 1] + [s[|s| - 1]];
    }
  }

  /** Without '-' in the text, the collapsed text ends with '-' exactly
      when the text ends with white space. */
  lemma {:induction false} CollapseEndsWithDash(s: string)
    requires '-' !in s
    ensures var r := CollapseSpaces(s); (r != [] && r[|r| - 1] == '-') <==> (s != [] && IsSpace(s[|s| - 1]))
  {
    if s != [] {
      CollapseEndsWithDash(s[..|s| - 1]);
    }
  }

  /** Without '-' in the text, collapsing never puts two '-' side by side. */
  lemma {:induction false} CollapseNoDoubled(s: string)
    requires '-' !in s
    ensures NoDoubled(CollapseSpaces(s), '-')
  {
    if s != [] {
      var init := s[..|s| - 1];
      assert '-' !in init;
      CollapseNoDoubled(init);
      CollapseEndsWithDash(init);
    }
  }

  /** The slug of a category without '-' has no white space, no upper-case
      letter and no doubled '-'. */
  lemma SlugShape(cat: string)
    requires '-' !in cat
    ensures var x := Slug(cat); NoDoubled(x, '-') && forall k :: 0 <= k < |x| ==> !IsSpace(x[k]) && !IsUpperAscii(x[k])
  {
    var lowered := Lower(cat);
    assert '-' !in lowered;
    CollapseSpacesMeaning(lowered);
    CollapseNoDoubled(lowered);
    CollapseChars(lowered);
    var x := Slug(cat);
    forall k | 0 <= k < |x|
      ensures !IsUpperAscii(x[k])
    {
      assert x[k] in lowered || x[k] == '-';
    }
  }

  /** A category that comes back from its slug is title-cased. */
  lemma RoundTripIsTitleCased(cat: string)
    requires Formatted(Slug(cat)) == cat
    ensures TitleCased(cat)
  {
    if '-' in cat {
      HyphenNeverRoundTrips(cat);
      assert false;
    }
    SlugShape(cat);
    FormattedTitleCased(Slug(cat));
  }

  /** A category's button is highlighted after it is clicked exactly when
      the category is title-cased. */
  lemma RoundTripExactly(cat: string)
    ensures Formatted(Slug(cat)) == cat <==> TitleCased(cat)
  {
    if TitleCased(cat) {
      TitleCasedRoundTrip(cat);
    }
    if Formatted(Slug(cat)) == cat {
      RoundTripIsTitleCased(cat);
    }
  }

  /** The fallback category "UPS Batteries" decodes from its own slug as
      "Ups Batteries". */
  lemma UpsBatteriesDecodedAsUps()
    ensures Slug("UPS Batteries") == Slug("Ups Batteries")
    ensures Formatted(Slug("UPS Batteries")) == "Ups Batteries" != "UPS Batteries"
  {
    UpsSameSlug();
    var words := ["Ups", "Batteries"];
    LetterWord("Ups");
    LetterWord("Batteries");
    assert forall i :: 0 <= i < |words| ==> TitleWord(words[i]) by {
      assert words[0] == "Ups" && words[1] == "Batteries";
    }
    JoinUps(words);
    TitleWordsRoundTrip(words);
  }

  lemma UpsSameSlug()
    ensures Slug("UPS Batteries") == Slug("Ups Batteries")
  {
    assert "UPS Batteries" == "UPS" + " Batteries";
    assert "Ups Batteries" == "Ups" + " Batteries";
    LowerAppend("UPS", " Batteries");
    LowerAppend("Ups", " Batteries");
    assert Lower("UPS") == Lower("Ups");
  }

  lemma JoinUps(words: seq<string>)
    requires words == ["Ups", "Batteries"]
    ensures Join(words, " ") == "Ups Batteries"
  {
    assert words[..1] == ["Ups"];
  }

  /** A capital followed by small ASCII letters is a title-cased word. */
  lemma LetterWord(w: string)
    requires |w| >= 1 && IsUpperAscii(w[0])
    requires forall k :: 1 <= k < |w| ==> IsLowerAscii(w[k])
    ensures TitleWord(w)
  {
  }

  // ---------------------------------------------------------------------
  // The corrected decoding: look the slug up among the categories

  /** The slug of every category, in order. */
  function Slugs(categories: seq<string>): (r: seq<string>)
    ensures |r| == |categories| && forall i :: 0 <= i < |categories| ==> r[i] == Slug(categories[i])
  {
    seq(|categories|, i requires 0 <= i < |categories| => Slug(categories[i]))
  }

  /** The first category whose slug is `selected`, or the capitalised slug
      when no category has it. */
  function Resolve(categories: seq<string>, selected: string): (r: string)
    ensures selected in Slugs(categories) ==>
      var k := FirstIndex(Slugs(categories), selected);
      r == categories[k] && Slug(r) == selected && forall j :: 0 <= j < k ==> Slug(categories[j]) != selected
    ensures selected !in Slugs(categories) ==> r == Formatted(selected)
  {
    var slugs := Slugs(categories);
    if selected in slugs then categories[FirstIndex(slugs, selected)] else Formatted(selected)
  }

  /** No two categories share a slug. */
  predicate SlugsDistinct(categories: seq<string>)
  {
    NoDuplicates(Slugs(categories))
  }

  /** With distinct slugs every category comes back from its slug. */
  lemma ResolveRestores(categories: seq<string>, k: nat)
    requires SlugsDistinct(categories) && k < |categories|
    ensures Resolve(categories, Slug(categories[k])) == categories[k]
  {
    var slugs := Slugs(categories);
    assert slugs[k] == Slug(categories[k]);
    var i := FirstIndex(slugs, slugs[k]);
    assert !(i < k) && !(k < i);
  }

  const FallbackCategories := ["Batteries", "Chargers", "Inverters", "UPS Batteries", "Solar Batteries", "E-Rickshaw Batteries"]

  lemma {:induction false} CollapseFirst(s: string)
    requires s != [] && !IsSpace(s[0])
    ensures CollapseSpaces(s) != [] && CollapseSpaces(s)[0] == s[0]
  {
    if |s| > 1 {
      CollapseFirst(s[..|s| - 1]);
    }
  }

  /** A slug starts with the category's first character, lower-cased. */
  lemma SlugFirst(cat: string)
    requires cat != [] && !IsSpace(cat[0])
    ensures Slug(cat) != [] && Slug(cat)[0] == LowerChar(cat[0])
  {
    assert !IsSpace(Lower(cat)[0]) by {
      if IsUpperAscii(cat[0]) {
        assert IsLowerAscii(Lower(cat)[0]);
      }
    }
    CollapseFirst(Lower(cat));
  }

  /** The six fallback categories start with six different letters, so
      they have six different slugs and each of them is restored by the
      corrected decoding. */
  lemma FallbackSlugsDistinct()
    ensures SlugsDistinct(FallbackCategories)
  {
    var c := FallbackCategories;
    var slugs := Slugs(c);
    SlugFirst(c[0]);
    SlugFirst(c[1]);
    SlugFirst(c[2]);
    SlugFirst(c[3]);
    SlugFirst(c[4]);
    SlugFirst(c[5]);
    var firsts := "bciuse";
    assert slugs[0][0] == firsts[0] && slugs[1][0] == firsts[1] && slugs[2][0] == firsts[2];
    assert slugs[3][0] == firsts[3] && slugs[4][0] == firsts[4] && slugs[5][0] == firsts[5];
    DistinctLetters(firsts);
    DistinctByFirst(slugs, firsts);
  }

  lemma DistinctLetters(firsts: string)
    requires firsts == "bciuse"
    ensures NoDuplicates(firsts)
  {
  }

  /** Texts that start with pairwise different characters are different. */
  lemma DistinctByFirst(texts: seq<string>, firsts: string)
    requires |texts| == |firsts| && NoDuplicates(firsts)
    requires forall i :: 0 <= i < |texts| ==> texts[i] != [] && texts[i][0] == firsts[i]
    ensures NoDuplicates(texts)
  {
    forall i, j | 0 <= i < j < |texts|
      ensures texts[i] != texts[j]
    {
      assert texts[i][0] != texts[j][0];
    }
  }

  // ---------------------------------------------------------------------
  // The page

  /** A product as the page reads it: its category may be missing. */
  datatype Card = Card(category: Option<string>, name: Option<string>, image: ImageSource)

  /** `product.category?.trim() === formattedCategory` */
  predicate InCategory(card: Card, category: string)
  {
    card.category.Some? && Trim(card.category.value) == category
  }

  /** The client-side filter, when a category is selected. */
  function KeepCategory(cards: seq<Card>, category: string): (r: seq<Card>)
    ensures forall k :: 0 <= k < |r| ==> InCategory(r[k], category)
  {
    if cards == [] then []
    else
      KeepCategory(cards[..|cards| - 1], category) +
        (if InCategory(cards[|cards| - 1], category) then [cards[|cards| - 1]] else [])
  }

  /** Every product of the category is kept. */
  lemma {:induction false} KeepCategoryComplete(cards: seq<Card>, category: string)
    ensures forall k :: 0 <= k < |cards| && InCategory(cards[k], category) ==> cards[k] in KeepCategory(cards, category)
  {
    if cards != [] {
      var init, last := cards[..|cards| - 1], cards[|cards| - 1];
      KeepCategoryComplete(init, category);
      var r := KeepCategory(init, category);
      var tail := if InCategory(last, category) then [last] else [];
      assert KeepCategory(cards, category) == r + tail;
      forall k | 0 <= k < |cards| && InCategory(cards[k], category)
        ensures cards[k] in r + tail
      {
        if k < |cards| - 1 {
          assert cards[k] == init[k];
          assert cards[k] in r;
        } else {
          assert cards[k] in tail;
        }
      }
    }
  }

  /** Each card of the category is kept as often as the response holds it. */
  lemma {:induction false} KeepCategoryCount(cards: seq<Card>, category: string, c: Card)
    ensures multiset(KeepCategory(cards, category))[c] == if InCategory(c, category) then multiset(cards)[c] else 0
  {
    if cards != [] {
      var init, last := cards[..|cards| - 1], cards[|cards| - 1];
      KeepCategoryCount(init, category, c);
      FilterCountStep(cards, KeepCategory(init, category), KeepCategory(cards, category),
                      InCategory(last, category), InCategory(c, category), c);
    }
  }

  lemma {:induction false} KeepCategorySubsequence(cards: seq<Card>, category: string)
    ensures IsSubsequence(KeepCategory(cards, category), cards)
  {
    if cards != [] {
      var init, last := cards[..|cards| - 1], cards[|cards| - 1];
      KeepCategorySubsequence(init, category);
      var r := KeepCategory(init, category);
      if InCategory(last, category) {
        assert (r + [last])[..|r + [last]| - 1] == r;
      } else {
        assert r + [] == r;
      }
    }
  }

  /** The products shown: all fetched ones when no category is selected,
      otherwise those in the selected category. */
  function ClientFilter(cards: seq<Card>, category: string): (r: seq<Card>)
    ensures category == "" ==> r == cards
    ensures category != "" ==> forall k :: 0 <= k < |r| ==> InCategory(r[k], category)
    ensures category != "" ==> forall k :: 0 <= k < |cards| && InCategory(cards[k], category) ==> cards[k] in r
  {
    if category == "" then cards
    else
      KeepCategoryComplete(cards, category);
      KeepCategory(cards, category)
  }

  /** With a category selected, each card of it is shown as often as the
      response holds it, and no other card is shown. */
  lemma ClientFilterCount(cards: seq<Card>, category: string, c: Card)
    requires category != ""
    ensures multiset(ClientFilter(cards, category))[c] == if InCategory(c, category) then multiset(cards)[c] else 0
  {
    KeepCategoryCount(cards, category, c);
  }

  /** The filter keeps the fetched order and invents nothing. */
  lemma ClientFilterSubsequence(cards: seq<Card>, category: string)
    ensures IsSubsequence(ClientFilter(cards, category), cards)
  {
    if category == "" {
      SubsequenceOfItself(cards);
    } else {
      KeepCategorySubsequence(cards, category);
    }
  }

  /** The query parameters of the product request: the category only when
      one is selected. */
  function RequestParams(category: string): (r: seq<(string, string)>)
    ensures category == "" <==> r == []
    ensures category != "" ==> Url.Get(r, "category") == Some(category)
  {
    if category != "" then [("category", category)] else []
  }

  /** The category buttons after the "All Types" one: the fetched names
      without any "All Types" entry. */
  function Buttons(categories: seq<string>): (r: seq<string>)
    ensures "All Types" !in r
    ensures forall c :: c != "All Types" ==> multiset(r)[c] == multiset(categories)[c]
    ensures IsSubsequence(r, categories)
  {
    CheckboxFilters.RemoveAllMeaning(categories, "All Types");
    CheckboxFilters.RemoveAll(categories, "All Types")
  }

  /** The title on a product card. */
  function CardTitle(name: Option<string>): (r: string)
    ensures name.Some? && |name.value| > 30 ==> r == name.value[..30] + "..."
    ensures name.Some? && 0 < |name.value| <= 30 ==> r == name.value
    ensures (name.None? || name.value == "") ==> r == "Unnamed Product"
    ensures |r| <= 33
  {
    match name
    case Some(n) => if |n| > 30 then n[..30] + "..." else if n != "" then n else "Unnamed Product"
    case None => "Unnamed Product"
  }

  /** The image address is never empty, so the page's own
      `|| '/placeholder.jpg'` never applies. */
  lemma ImageUrlNonEmpty(src: ImageSource)
    ensures ImageUrl(src) != ""
  {
  }

  /** Everything the page derives from its address, the category names and
      the fetched products. */
  datatype View = View(
    selected: string,
    category: string,
    request: seq<(string, string)>,
    buttons: seq<string>,
    highlighted: seq<bool>,
    shown: seq<Card>,
    titles: seq<string>,
    images: seq<string>,
    emptyMessage: string)

  /** The page, with its category decoded by looking the slug up among the
      categories (the decoding the page's own comment intends). */
  function Page(query: seq<(string, string)>, categories: seq<string>, fetched: seq<Card>): (v: View)
    ensures v.selected == SelectedSlug(query)
    ensures v.category == Resolve(categories, v.selected) && v.request == RequestParams(v.category)
    ensures v.shown == ClientFilter(fetched, v.category)[..Min(30, |ClientFilter(fetched, v.category)|)]
    ensures v.selected == "" ==> v.category == "" && v.request == [] && v.shown == fetched[..Min(30, |fetched|)]
    ensures v.buttons == Buttons(categories) && |v.highlighted| == |v.buttons|
    ensures forall k :: 0 <= k < |v.buttons| ==> (v.highlighted[k] <==> v.buttons[k] == v.category)
    ensures |v.shown| <= 30 && |v.titles| == |v.shown| == |v.images|
    ensures forall k :: 0 <= k < |v.shown| ==> v.titles[k] == CardTitle(v.shown[k].name) && v.images[k] == ImageUrl(v.shown[k].image)
    ensures v.emptyMessage == "No products found for " + (if v.category == "" then "All Types" else v.category)
  {
    var selected := SelectedSlug(query);
    var category := Resolve(categories, selected);
    assert selected == "" ==> category == "" by {
      if selected == "" {
        forall k | 0 <= k < |categories| && Slug(categories[k]) == ""
          ensures categories[k] == ""
        {
          if categories[k] != "" {
            SlugNonEmpty(categories[k]);
          }
        }
      }
    }
    var buttons := Buttons(categories);
    var filtered := ClientFilter(fetched, category);
    var shown := filtered[..Min(30, |filtered|)];
    View(selected, category, RequestParams(category), buttons,
         seq(|buttons|, k requires 0 <= k < |buttons| => buttons[k] == category),
         shown,
         seq(|shown|, k requires 0 <= k < |shown| => CardTitle(shown[k].name)),
         seq(|shown|, k requires 0 <= k < |shown| => ImageUrl(shown[k].image)),
         "No products found for " + (if category == "" then "All Types" else category))
  }

  function Min(a: int, b: int): int { if a < b then a else b }

  lemma {:induction false} CollapseNonEmpty(s: string)
    requires s != ""
    ensures CollapseSpaces(s) != ""
  {
    if |s| > 1 {
      CollapseNonEmpty(s[..|s| - 1]);
    }
  }

  lemma SlugNonEmpty(cat: string)
    requires cat != ""
    ensures Slug(cat) != ""
  {
    CollapseNonEmpty(Lower(cat));
  }

  /** Clicking a button selects its category and highlights it, when the
      categories have distinct slugs. */
  lemma ClickHighlights(categories: seq<string>, fetched: seq<Card>, k: nat)
    requires SlugsDistinct(categories) && k < |categories| && categories[k] != ""
    ensures Page([("category", Slug(categories[k]))], categories, fetched).category == categories[k]
  {
    ResolveRestores(categories, k);
  }
}
