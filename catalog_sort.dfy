/** The ordering step of the catalog handlers: one comparator from the table
    `sortOptions`, applied with `Array.prototype.sort`, which ECMA-262
    requires to be stable (section 23.1.3.30 of the 2023 edition). The sort
    is an in-place insertion sort on an array, proved equal to a functional
    insertion sort, and that one is proved to be the only stable ordering of
    its input. */
module CatalogSort {
  import opened Battery
  import opened Seqs

  /** The orders a comparator can impose: the four of `sortOptions`, and
      `Unordered` for a function whose result converts to NaN, which the
      sort reads as "equal" (section 23.1.3.30.2 of ECMA-262, 2023). */
  datatype SortKey = PriceAsc | PriceDesc | RatingDesc | Newest | Unordered

  /** What `sortOptions[sortBy] || sortOptions.newest` hands to
      `batteries.sort`. The lookup also finds the properties `sortOptions`
      inherits from `Object.prototype`: some are functions that order
      nothing, some are functions that throw once called, and `__proto__`
      is an object, which `sort` rejects before comparing anything. */
  datatype Comparator = Ordering(key: SortKey) | ThrowsWhenCalled | NotCallable

  /** Inherited functions that return a value converting to NaN when
      called with `this` undefined: `Object(a)` gives back the product
      object and `Object.prototype.toString` gives "[object Undefined]". */
  const NaNMethods: set<string> := {"toString", "constructor"}

  /** Inherited functions that begin with `ToObject(this)` or invoke a
      method of `this`, and so throw a TypeError when `this` is undefined. */
  const ThrowingMethods: set<string> := {
    "valueOf", "hasOwnProperty", "isPrototypeOf", "propertyIsEnumerable", "toLocaleString",
    "__defineGetter__", "__defineSetter__", "__lookupGetter__", "__lookupSetter__"}

  const OwnKeys: set<string> := {"priceAsc", "priceDesc", "ratingDesc", "newest"}

  /** `sortOptions[sortBy] || sortOptions.newest` */
  function SelectSort(sortBy: string): (c: Comparator)
    ensures sortBy == "priceAsc" <==> c == Ordering(PriceAsc)
    ensures sortBy == "priceDesc" <==> c == Ordering(PriceDesc)
    ensures sortBy == "ratingDesc" <==> c == Ordering(RatingDesc)
    ensures sortBy in NaNMethods <==> c == Ordering(Unordered)
    ensures sortBy in ThrowingMethods <==> c == ThrowsWhenCalled
    ensures sortBy == "__proto__" <==> c == NotCallable
    ensures c == Ordering(Newest) <==>
      (sortBy == "newest" || sortBy !in OwnKeys + NaNMethods + ThrowingMethods + {"__proto__"})
  {
    if sortBy == "priceAsc" then Ordering(PriceAsc)
    else if sortBy == "priceDesc" then Ordering(PriceDesc)
    else if sortBy == "ratingDesc" then Ordering(RatingDesc)
    else if sortBy in NaNMethods then Ordering(Unordered)
    else if sortBy in ThrowingMethods then ThrowsWhenCalled
    else if sortBy == "__proto__" then NotCallable
    else Ordering(Newest)
  }

  /** `batteries.sort(c)` throws: at once for a value that is not callable,
      and at the first comparison, which a list of two or more elements
      needs, for a function that throws. */
  predicate SortThrows(c: Comparator, n: nat)
  {
    c.NotCallable? || (c.ThrowsWhenCalled? && n >= 2)
  }

  /** The order a sort that does not throw leaves behind: a list of at most
      one element is never compared, so any key describes it. */
  function OrderOf(c: Comparator): SortKey
  {
    if c.Ordering? then c.key else Unordered
  }

  /** The number each comparator orders by, ascending. */
  function Key(k: SortKey, p: Product): int
  {
    match k
    case PriceAsc => p.price
    case PriceDesc => -p.price
    case RatingDesc => -p.rating
    case Newest => -p.createdAt
    case Unordered => 0
  }

  /** The comparator of `sortOptions`: negative puts `a` first, positive
      puts `b` first. */
  function Compare(k: SortKey, a: Product, b: Product): (c: int)
    ensures c == Key(k, a) - Key(k, b)
  {
    match k
    case PriceAsc => a.price - b.price
    case PriceDesc => b.price - a.price
    case RatingDesc => b.rating - a.rating
    case Newest => b.createdAt - a.createdAt
    case Unordered => 0
  }

  /** Ordered by the comparator: no pair is out of order. */
  predicate SortedBy(k: SortKey, s: seq<Product>)
  {
    forall i, j :: 0 <= i < j < |s| ==> Key(k, s[i]) <= Key(k, s[j])
  }

  lemma SortedAppend(k: SortKey, s: seq<Product>, x: Product)
    requires SortedBy(k, s)
    requires forall y :: y in s ==> Key(k, y) <= Key(k, x)
    ensures SortedBy(k, s + [x])
  {
    var t := s + [x];
    forall i, j | 0 <= i < j < |t| ensures Key(k, t[i]) <= Key(k, t[j]) {
      if j == |s| {
        assert t[i] in s;
      } else {
        assert t[i] == s[i] && t[j] == s[j];
      }
    }
  }

  /** What "ordered by the comparator" means for each key. */
  lemma SortedMeaning(k: SortKey, s: seq<Product>, i: int, j: int)
    requires SortedBy(k, s) && 0 <= i < j < |s|
    ensures Compare(k, s[i], s[j]) <= 0
    ensures k == PriceAsc ==> s[i].price <= s[j].price
    ensures k == PriceDesc ==> s[i].price >= s[j].price
    ensures k == RatingDesc ==> s[i].rating >= s[j].rating
    ensures k == Newest ==> s[i].createdAt >= s[j].createdAt
  {
  }

  // ---------------------------------------------------------------------
  // Functional insertion sort

  /** Inserts `x`, which comes after every element of `s` in the input,
      behind every element that does not compare greater than it. */
  function Insert(k: SortKey, s: seq<Product>, x: Product): seq<Product>
    decreases |s|
  {
    if s == [] || Compare(k, s[|s| - 1], x) <= 0 then s + [x]
    else Insert(k, s[..|s| - 1], x) + [s[|s| - 1]]
  }

  function StableSort(k: SortKey, s: seq<Product>): seq<Product>
  {
    if s == [] then []
    else Insert(k, StableSort(k, s[..|s| - 1]), s[|s| - 1])
  }

  lemma {:induction false} InsertPermutation(k: SortKey, s: seq<Product>, x: Product)
    ensures multiset(Insert(k, s, x)) == multiset(s) + multiset{x}
    decreases |s|
  {
    if s != [] && Compare(k, s[|s| - 1], x) > 0 {
      InsertPermutation(k, s[..|s| - 1], x);
      assert s == s[..|s| - 1] + [s[|s| - 1]];
    }
  }

  lemma {:induction false} InsertSorted(k: SortKey, s: seq<Product>, x: Product)
    requires SortedBy(k, s)
    ensures SortedBy(k, Insert(k, s, x))
    decreases |s|
  {
    if s == [] || Compare(k, s[|s| - 1], x) <= 0 {
      forall y | y in s ensures Key(k, y) <= Key(k, x) {
        var i :| 0 <= i < |s| && s[i] == y;
        assert i == |s| - 1 || Key(k, s[i]) <= Key(k, s[|s| - 1]);
      }
      SortedAppend(k, s, x);
    } else {
      var init, last := s[..|s| - 1], s[|s| - 1];
      assert SortedBy(k, init);
      InsertSorted(k, init, x);
      InsertPermutation(k, init, x);
      var t := Insert(k, init, x);
      forall y | y in t ensures Key(k, y) <= Key(k, last) {
        assert y in multiset(t);
        if y != x {
          assert y in multiset(init);
          var i :| 0 <= i < |init| && init[i] == y;
          assert s[i] == y;
        }
      }
      SortedAppend(k, t, last);
    }
  }

  /** The result is ordered by the chosen comparator. */
  lemma {:induction false} StableSortSorted(k: SortKey, s: seq<Product>)
    ensures SortedBy(k, StableSort(k, s))
  {
    if s != [] {
      StableSortSorted(k, s[..|s| - 1]);
      InsertSorted(k, StableSort(k, s[..|s| - 1]), s[|s| - 1]);
    }
  }

  /** The result is a permutation of the input. */
  lemma {:induction false} StableSortPermutation(k: SortKey, s: seq<Product>)
    ensures multiset(StableSort(k, s)) == multiset(s)
    ensures |StableSort(k, s)| == |s|
  {
    if s != [] {
      var init, last := s[..|s| - 1], s[|s| - 1];
      var t := StableSort(k, init);
      StableSortPermutation(k, init);
      InsertPermutation(k, t, last);
      assert StableSort(k, s) == Insert(k, t, last);
      MultisetSnoc(s);
    }
    assert |multiset(StableSort(k, s))| == |multiset(s)|;
  }

  // ---------------------------------------------------------------------
  // Stability

  /** The elements of `s` whose key is `v`, in their order in `s`. */
  function Group(k: SortKey, s: seq<Product>, v: int): seq<Product>
  {
    if s == [] then []
    else Group(k, s[..|s| - 1], v) + (if Key(k, s[|s| - 1]) == v then [s[|s| - 1]] else [])
  }

  /** `t` orders every group of equal-key elements as `s` does. */
  ghost predicate SameGroups(k: SortKey, t: seq<Product>, s: seq<Product>)
  {
    forall v :: Group(k, t, v) == Group(k, s, v)
  }

  lemma GroupAppend(k: SortKey, a: seq<Product>, b: seq<Product>, v: int)
    ensures Group(k, a + b, v) == Group(k, a, v) + Group(k, b, v)
    decreases |b|
  {
    if b != [] {
      var init, last := b[..|b| - 1], b[|b| - 1];
      assert (a + b)[..|a + b| - 1] == a + init;
      assert (a + b)[|a + b| - 1] == last;
      GroupAppend(k, a, init, v);
      assert Group(k, a + b, v) == Group(k, a + init, v) + (if Key(k, last) == v then [last] else []);
      assert Group(k, b, v) == Group(k, init, v) + (if Key(k, last) == v then [last] else []);
    } else {
      assert a + b == a;
    }
  }

  lemma GroupSingle(k: SortKey, y: Product, v: int)
    ensures Group(k, [y], v) == if Key(k, y) == v then [y] else []
  {
    assert [y][..0] == [];
  }

  lemma {:induction false} InsertGroups(k: SortKey, s: seq<Product>, x: Product, v: int)
    ensures Group(k, Insert(k, s, x), v) == Group(k, s + [x], v)
    decreases |s|
  {
    if s != [] && Compare(k, s[|s| - 1], x) > 0 {
      var init, last := s[..|s| - 1], s[|s| - 1];
      assert s == init + [last];
      assert Insert(k, s, x) == Insert(k, init, x) + [last];
      GroupSingle(k, x, v);
      GroupSingle(k, last, v);
      calc {
        Group(k, Insert(k, s, x), v);
        { GroupAppend(k, Insert(k, init, x), [last], v); }
        Group(k, Insert(k, init, x), v) + Group(k, [last], v);
        { InsertGroups(k, init, x, v); }
        Group(k, init + [x], v) + Group(k, [last], v);
        { GroupAppend(k, init, [x], v); }
        Group(k, init, v) + Group(k, [x], v) + Group(k, [last], v);
        Group(k, init, v) + Group(k, [last], v) + Group(k, [x], v);
        { GroupAppend(k, init, [last], v); }
        Group(k, s, v) + Group(k, [x], v);
        { GroupAppend(k, s, [x], v); }
        Group(k, s + [x], v);
      }
    }
  }

  /** Elements with equal keys keep their input order. */
  lemma {:induction false} StableSortStable(k: SortKey, s: seq<Product>)
    ensures SameGroups(k, StableSort(k, s), s)
  {
    if s != [] {
      var init, last := s[..|s| - 1], s[|s| - 1];
      StableSortStable(k, init);
      forall v ensures Group(k, StableSort(k, s), v) == Group(k, s, v) {
        InsertGroups(k, StableSort(k, init), last, v);
        GroupAppend(k, StableSort(k, init), [last], v);
        GroupAppend(k, init, [last], v);
        assert init + [last] == s;
      }
    }
  }

  lemma GroupMembers(k: SortKey, s: seq<Product>, v: int)
    ensures forall p :: p in Group(k, s, v) <==> p in s && Key(k, p) == v
  {
    if s != [] {
      GroupMembers(k, s[..|s| - 1], v);
      assert s == s[..|s| - 1] + [s[|s| - 1]];
    }
  }

  lemma {:induction false} GroupFirst(k: SortKey, s: seq<Product>)
    requires s != []
    ensures Group(k, s, Key(k, s[0])) != [] && Group(k, s, Key(k, s[0]))[0] == s[0]
    ensures forall v :: Group(k, s[1..], v) ==
              if v == Key(k, s[0]) then Group(k, s, v)[1..] else Group(k, s, v)
  {
    forall v ensures Group(k, s, v) == Group(k, [s[0]], v) + Group(k, s[1..], v) {
      GroupAppend(k, [s[0]], s[1..], v);
      assert [s[0]] + s[1..] == s;
    }
    assert Group(k, [s[0]], Key(k, s[0])) == [s[0]] by {
      assert [s[0]][..0] == [];
    }
    forall v | v != Key(k, s[0]) ensures Group(k, [s[0]], v) == [] {
      assert [s[0]][..0] == [];
    }
  }

  lemma HeadIsLeast(k: SortKey, t: seq<Product>, p: Product)
    requires SortedBy(k, t) && p in t
    ensures Key(k, t[0]) <= Key(k, p)
  {
    var i :| 0 <= i < |t| && t[i] == p;
    if i > 0 { assert Key(k, t[0]) <= Key(k, t[i]); }
  }

  lemma SortedTail(k: SortKey, t: seq<Product>)
    requires SortedBy(k, t) && t != []
    ensures SortedBy(k, t[1..])
  {
    forall i, j | 0 <= i < j < |t| - 1 ensures Key(k, t[1..][i]) <= Key(k, t[1..][j]) {
      assert t[1..][i] == t[i + 1] && t[1..][j] == t[j + 1];
    }
  }

  /** Any ordering of a sequence that is sorted and keeps every group of
      equal keys in input order is the one `StableSort` produces: whatever
      stable algorithm the JavaScript engine uses, the handlers return the
      same sequence. */
  lemma {:induction false} StableOrderIsUnique(k: SortKey, t: seq<Product>, u: seq<Product>)
    requires SortedBy(k, t) && SortedBy(k, u) && SameGroups(k, t, u)
    ensures t == u
    decreases |t|
  {
    if t == [] {
      if u != [] {
        GroupFirst(k, u);
        assert false;
      }
    } else {
      HeadsAgree(k, t, u);
      SortedTail(k, t);
      SortedTail(k, u);
      TailGroups(k, t, u);
      StableOrderIsUnique(k, t[1..], u[1..]);
      assert t == [t[0]] + t[1..] && u == [u[0]] + u[1..];
    }
  }

  /** Two sorted orderings with the same groups start with the same element:
      the first of the least key's group. */
  lemma HeadsAgree(k: SortKey, t: seq<Product>, u: seq<Product>)
    requires t != [] && SortedBy(k, t) && SortedBy(k, u) && SameGroups(k, t, u)
    ensures u != [] && t[0] == u[0]
  {
    GroupFirst(k, t);
    var m := Key(k, t[0]);
    assert Group(k, u, m) != [];
    assert u != [];
    GroupFirst(k, u);
    var n := Key(k, u[0]);
    GroupMembers(k, u, m);
    GroupMembers(k, t, n);
    assert t[0] in Group(k, u, m);
    HeadIsLeast(k, u, t[0]);
    assert u[0] in Group(k, t, n);
    HeadIsLeast(k, t, u[0]);
    assert m == n;
    assert t[0] == Group(k, t, m)[0] == Group(k, u, m)[0] == u[0];
  }

  /** Dropping the shared first element keeps the groups equal. */
  lemma TailGroups(k: SortKey, t: seq<Product>, u: seq<Product>)
    requires t != [] && u != [] && t[0] == u[0] && SameGroups(k, t, u)
    ensures SameGroups(k, t[1..], u[1..])
  {
    GroupFirst(k, t);
    GroupFirst(k, u);
    forall v ensures Group(k, t[1..], v) == Group(k, u[1..], v) {
      assert Group(k, t, v) == Group(k, u, v);
    }
  }

  /** So `StableSort` is characterised by the three properties above. */
  lemma StableSortCharacterised(k: SortKey, s: seq<Product>, t: seq<Product>)
    requires SortedBy(k, t) && SameGroups(k, t, s)
    ensures t == StableSort(k, s)
  {
    StableSortSorted(k, s);
    StableSortStable(k, s);
    StableOrderIsUnique(k, t, StableSort(k, s));
  }

  /** A comparator that orders nothing leaves the list as it was: the
      inherited `toString` and `constructor` keep the filtered order. */
  lemma {:induction false} UnorderedKeepsOrder(s: seq<Product>)
    ensures StableSort(Unordered, s) == s
  {
    if s != [] {
      var init, last := s[..|s| - 1], s[|s| - 1];
      UnorderedKeepsOrder(init);
      assert Insert(Unordered, init, last) == init + [last];
      assert init + [last] == s;
    }
  }

  // ---------------------------------------------------------------------
  // In place: `batteries.sort(sort)`

  /** Where `Insert` puts `x`: behind the last element that does not compare
      greater than it. */
  lemma {:induction false} InsertPosition(k: SortKey, s: seq<Product>, x: Product, j: int)
    requires 0 <= j <= |s|
    requires j == 0 || Compare(k, s[j - 1], x) <= 0
    requires forall m :: j <= m < |s| ==> Compare(k, s[m], x) > 0
    ensures Insert(k, s, x) == s[..j] + [x] + s[j..]
    decreases |s|
  {
    if j < |s| {
      var init, last := s[..|s| - 1], s[|s| - 1];
      assert Compare(k, last, x) > 0;
      assert Insert(k, s, x) == Insert(k, init, x) + [last];
      assert init[..j] == s[..j];
      assert j == 0 || init[j - 1] == s[j - 1];
      assert forall m :: j <= m < |init| ==> init[m] == s[m];
      InsertPosition(k, init, x, j);
      assert s[j..] == init[j..] + [last];
    } else {
      assert s[..j] == s;
    }
  }

  lemma Shifted(r: seq<Product>, sorted: seq<Product>, x: Product, i: int, j: int)
    requires 0 <= j <= i == |sorted| < |r| && r[j] == x
    requires forall m :: 0 <= m < j ==> r[m] == sorted[m]
    requires forall m :: j < m <= i ==> r[m] == sorted[m - 1]
    ensures r[..i + 1] == sorted[..j] + [x] + sorted[j..]
  {
  }

  /** Moves `a[i]` down into the sorted prefix `a[..i]`, shifting the
      elements that compare greater than it one place up. */
  method InsertInPlace(a: array<Product>, i: int, k: SortKey)
    requires 0 <= i < a.Length
    modifies a
    ensures a[..i + 1] == Insert(k, old(a[..i]), old(a[i]))
    ensures a[i + 1..] == old(a[i + 1..])
  {
    ghost var sorted := a[..i];
    var x := a[i];
    var j := i;
    while j > 0 && Compare(k, a[j - 1], x) > 0
      invariant 0 <= j <= i
      invariant forall m :: 0 <= m < j ==> a[m] == sorted[m]
      invariant forall m :: j < m <= i ==> a[m] == sorted[m - 1]
      invariant forall m :: j <= m < i ==> Compare(k, sorted[m], x) > 0
      invariant a[i + 1..] == old(a[i + 1..])
    {
      a[j] := a[j - 1];
      j := j - 1;
    }
    a[j] := x;
    Shifted(a[..], sorted, x, i, j);
    InsertPosition(k, sorted, x, j);
  }

  method SortInPlace(a: array<Product>, k: SortKey)
    modifies a
    ensures a[..] == StableSort(k, old(a[..]))
  {
    ghost var input := a[..];
    var i := 0;
    while i < a.Length
      invariant 0 <= i <= a.Length
      invariant a[..i] == StableSort(k, input[..i])
      invariant a[i..] == input[i..]
    {
      assert a[i] == input[i];
      InsertInPlace(a, i, k);
      assert input[..i + 1][..i] == input[..i];
      assert a[i + 1..] == input[i + 1..];
      i := i + 1;
    }
    assert a[..] == a[..a.Length] && input == input[..a.Length];
  }
}
