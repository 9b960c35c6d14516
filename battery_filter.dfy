/** The single-choice battery filter: a price range and one choice per
    dropdown, each dropdown's first entry meaning "any". */
module BatteryFilter {
  import opened Optional

  const Brands := ["All Brands", "Amaron", "Exide", "Luminous", "PowerZONE"]
  const BatteryTypes := ["All Types", "Car Battery", "Inverter Battery", "Generator Battery"]
  const Capacities := ["All Capacities", "Below 50Ah", "50Ah - 100Ah", "100Ah - 150Ah", "Above 150Ah"]

  datatype Choice = Choice(priceRange: (int, int), brand: string, batteryType: string, capacity: string)

  /** The object passed to `onFilterChange`; `None` is `null`. */
  datatype FilterChange = FilterChange(
    priceRange: (int, int), brand: Option<string>, batteryType: Option<string>, capacity: Option<string>)

  /** `value === sentinel ? null : value` */
  function Unless(value: string, sentinel: string): (r: Option<string>)
    ensures r.None? <==> value == sentinel
    ensures r.Some? ==> r.value == value
  {
    if value == sentinel then None else Some(value)
  }

  /** `handleApplyFilters` */
  function Apply(choice: Choice): (change: FilterChange)
    ensures change.priceRange == choice.priceRange
    ensures change.brand.None? <==> choice.brand == "All Brands"
    ensures change.batteryType.None? <==> choice.batteryType == "All Types"
    ensures change.capacity.None? <==> choice.capacity == "All Capacities"
    ensures change.brand.Some? ==> change.brand.value == choice.brand
    ensures change.batteryType.Some? ==> change.batteryType.value == choice.batteryType
    ensures change.capacity.Some? ==> change.capacity.value == choice.capacity
  {
    FilterChange(choice.priceRange,
                 Unless(choice.brand, "All Brands"),
                 Unless(choice.batteryType, "All Types"),
                 Unless(choice.capacity, "All Capacities"))
  }

  /** Every real option of a dropdown is passed on as chosen. */
  lemma RealOptionsPassThrough(choice: Choice)
    requires choice.brand in Brands[1..] && choice.batteryType in BatteryTypes[1..] && choice.capacity in Capacities[1..]
    ensures Apply(choice) == FilterChange(choice.priceRange, Some(choice.brand), Some(choice.batteryType), Some(choice.capacity))
  {
  }

  /** `handleResetFilters`: the new state, and the object it emits. */
  function Reset(): (r: (Choice, FilterChange))
    ensures r.0 == Choice((2000, 5000), Brands[0], BatteryTypes[0], Capacities[0])
    ensures r.1 == FilterChange((2000, 5000), None, None, None)
  {
    (Choice((2000, 5000), "All Brands", "All Types", "All Capacities"),
     FilterChange((2000, 5000), None, None, None))
  }

  /** Applying right after a reset emits what the reset emitted. */
  lemma ApplyAfterReset()
    ensures Apply(Reset().0) == Reset().1
  {
  }
}
