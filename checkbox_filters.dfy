/** The checkbox filter panel: three lists of selected values and a price
    range, a toggle per checkbox, apply and reset. */
module CheckboxFilters {
  import opened Seqs

  /** `items.filter(item => item !== value)` */
  function RemoveAll(items: seq<string>, value: string): (r: seq<string>)
    ensures |r| <= |items|
  {
    if items == [] then []
    else RemoveAll(items[..|items| - 1], value) +
         (if items[|items| - 1] == value then [] else [items[|items| - 1]])
  }

  /** Removing a value drops all its occurrences, keeps every other value as
      often as it was there, and keeps the order. */
  lemma RemoveAllMeaning(items: seq<string>, value: string)
    ensures multiset(RemoveAll(items, value))[value] == 0
    ensures forall x :: x != value ==> multiset(RemoveAll(items, value))[x] == multiset(items)[x]
    ensures IsSubsequence(RemoveAll(items, value), items)
  {
    forall x ensures multiset(RemoveAll(items, value))[x] == if x == value then 0 else multiset(items)[x] {
      RemoveAllCount(items, value, x);
    }
    RemoveAllSubsequence(items, value);
  }

  lemma {:induction false} RemoveAllCount(items: seq<string>, value: string, x: string)
    ensures multiset(RemoveAll(items, value))[x] == if x == value then 0 else multiset(items)[x]
  {
    if items != [] {
      var init, last := items[..|items| - 1], items[|items| - 1];
      RemoveAllCount(init, value, x);
      assert items == init + [last];
      var r := RemoveAll(init, value);
      if last == value {
        assert RemoveAll(items, value) == r + [];
      } else {
        assert RemoveAll(items, value) == r + [last];
      }
    }
  }

  lemma {:induction false} RemoveAllSubsequence(items: seq<string>, value: string)
    ensures IsSubsequence(RemoveAll(items, value), items)
  {
    if items != [] {
      var init, last := items[..|items| - 1], items[|items| - 1];
      RemoveAllSubsequence(init, value);
      var r := RemoveAll(init, value);
      if last == value {
        assert RemoveAll(items, value) == r + [] == r;
      } else {
        assert (r + [last])[..|r + [last]| - 1] == r;
      }
    }
  }

  lemma {:induction false} RemoveAbsent(items: seq<string>, value: string)
    requires value !in items
    ensures RemoveAll(items, value) == items
  {
    if items != [] {
      var init, last := items[..|items| - 1], items[|items| - 1];
      assert last in items;
      assert value !in init by {
        forall k | 0 <= k < |init| ensures init[k] != value {
          assert init[k] == items[k];
        }
      }
      RemoveAbsent(init, value);
      assert RemoveAll(items, value) == init + [last];
      assert items == init + [last];
    }
  }

  /** `handleCheckboxChange`: a selected value is unselected (every
      occurrence), an unselected one is added at the end. */
  function Toggle(selected: seq<string>, value: string): (r: seq<string>)
    ensures value !in selected ==> r == selected + [value]
    ensures value in selected ==> value !in r
  {
    if value in selected then
      RemoveAllMeaning(selected, value);
      RemoveAll(selected, value)
    else selected + [value]
  }

  /** A toggle flips whether the value is selected and no other value's. */
  lemma ToggleFlips(selected: seq<string>, value: string)
    ensures forall x :: x in Toggle(selected, value) <==> (if x == value then x !in selected else x in selected)
  {
    RemoveAllMeaning(selected, value);
    forall x ensures x in Toggle(selected, value) <==> (if x == value then x !in selected else x in selected) {
      if value in selected {
        assert x in RemoveAll(selected, value) <==> multiset(RemoveAll(selected, value))[x] > 0;
      }
    }
  }

  /** Unselecting keeps the other selected values in order, each as often as
      before. */
  lemma UntoggleKeepsOthers(selected: seq<string>, value: string)
    requires value in selected
    ensures IsSubsequence(Toggle(selected, value), selected)
    ensures forall x :: x != value ==> multiset(Toggle(selected, value))[x] == multiset(selected)[x]
  {
    RemoveAllMeaning(selected, value);
  }

  /** Selecting a value and unselecting it again leaves the list as it was. */
  lemma ToggleTwice(selected: seq<string>, value: string)
    requires value !in selected
    ensures Toggle(Toggle(selected, value), value) == selected
  {
    var once := selected + [value];
    assert once[..|once| - 1] == selected;
    RemoveAbsent(selected, value);
  }

  datatype Panel = Panel(priceRange: (int, int), brands: seq<string>, categories: seq<string>, capacities: seq<string>)

  datatype Group = Brands | Categories | Capacities

  /** A checkbox change in one group of the panel. */
  function ToggleIn(panel: Panel, group: Group, value: string): (r: Panel)
    ensures r.priceRange == panel.priceRange
    ensures group == Brands ==> r == panel.(brands := Toggle(panel.brands, value))
    ensures group == Categories ==> r == panel.(categories := Toggle(panel.categories, value))
    ensures group == Capacities ==> r == panel.(capacities := Toggle(panel.capacities, value))
  {
    match group
    case Brands => panel.(brands := Toggle(panel.brands, value))
    case Categories => panel.(categories := Toggle(panel.categories, value))
    case Capacities => panel.(capacities := Toggle(panel.capacities, value))
  }

  /** The object `handleApply` hands to `onApplyFilters`. */
  datatype AppliedFilters = AppliedFilters(priceRange: (int, int), brands: seq<string>, categories: seq<string>, capacities: seq<string>)

  function Apply(panel: Panel): (f: AppliedFilters)
    ensures f.priceRange == panel.priceRange
    ensures f.brands == panel.brands && f.categories == panel.categories && f.capacities == panel.capacities
  {
    AppliedFilters(panel.priceRange, panel.brands, panel.categories, panel.capacities)
  }

  /** `handleReset`: the price range back to [2000, 10000] and nothing
      selected. */
  function Reset(): (panel: Panel)
    ensures panel.priceRange == (2000, 10000)
    ensures panel.brands == [] && panel.categories == [] && panel.capacities == []
  {
    Panel((2000, 10000), [], [], [])
  }

  /** After a reset, checking a box selects exactly that value. */
  lemma ToggleAfterReset(group: Group, value: string)
    ensures var p := ToggleIn(Reset(), group, value);
            (group == Brands ==> p.brands == [value]) &&
            (group == Categories ==> p.categories == [value]) &&
            (group == Capacities ==> p.capacities == [value])
  {
  }
}
