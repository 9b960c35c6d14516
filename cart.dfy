/** The shopping cart page: the `cartReducer` state machine, the handlers
    that dispatch to it and the totals rule. Money is an exact `real`. */
module Cart {
  import opened Optional
  import opened Text

  /** A cart line as stored in the cart object; a field the object lacks is
      `None`. The same record serves as the patch of `UPDATE_ITEM`, which
      carries only the fields it sets. */
  datatype Item = Item(quantity: Option<int>, notes: Option<string>, giftWrap: Option<bool>)

  const NoFields := Item(None, None, None)

  datatype CartState = CartState(items: map<int, Item>, promo: string)

  datatype Action =
    | SetCart(payload: map<int, Item>)
    | UpdateItem(productId: int, patch: Item)
    | RemoveItem(productId: int)
    | ClearCart
    | SetPromo(code: string)
    | Unknown(kind: string)

  /** `{ ...base, ...patch }`: the fields the patch carries win. */
  function Merge(base: Item, patch: Item): (r: Item)
    ensures patch.quantity.Some? ==> r.quantity == patch.quantity
    ensures patch.quantity.None? ==> r.quantity == base.quantity
    ensures patch.notes.Some? ==> r.notes == patch.notes
    ensures patch.notes.None? ==> r.notes == base.notes
    ensures patch.giftWrap.Some? ==> r.giftWrap == patch.giftWrap
    ensures patch.giftWrap.None? ==> r.giftWrap == base.giftWrap
  {
    Item(
      if patch.quantity.Some? then patch.quantity else base.quantity,
      if patch.notes.Some? then patch.notes else base.notes,
      if patch.giftWrap.Some? then patch.giftWrap else base.giftWrap)
  }

  /** Two patches in a row are one patch, the later fields winning. */
  lemma MergeTwice(base: Item, first: Item, second: Item)
    ensures Merge(Merge(base, first), second) == Merge(base, Merge(first, second))
  {
  }

  /** `state.items[id]`, with a missing id read as an empty object. */
  function ItemAt(items: map<int, Item>, id: int): Item
  {
    if id in items then items[id] else NoFields
  }

  function Reduce(state: CartState, action: Action): (r: CartState)
    // SET_CART replaces the items and keeps the promo
    ensures action.SetCart? ==> r.items == action.payload && r.promo == state.promo
    // UPDATE_ITEM: the target is present afterwards, patched; every other entry is untouched
    ensures action.UpdateItem? ==>
              && r.promo == state.promo
              && r.items.Keys == state.items.Keys + {action.productId}
              && r.items[action.productId] == Merge(ItemAt(state.items, action.productId), action.patch)
              && forall id :: id in state.items && id != action.productId ==> r.items[id] == state.items[id]
    // REMOVE_ITEM drops that key only
    ensures action.RemoveItem? ==>
              && r.promo == state.promo
              && r.items.Keys == state.items.Keys - {action.productId}
              && forall id :: id in r.items ==> r.items[id] == state.items[id]
    ensures action.ClearCart? ==> r.items == map[] && r.promo == state.promo
    ensures action.SetPromo? ==> r.items == state.items && r.promo == action.code
    ensures action.Unknown? ==> r == state
  {
    match action
    case SetCart(payload) => state.(items := payload)
    case UpdateItem(id, patch) =>
      state.(items := state.items[id := Merge(ItemAt(state.items, id), patch)])
    case RemoveItem(id) => state.(items := state.items - {id})
    case ClearCart => state.(items := map[])
    case SetPromo(code) => state.(promo := code)
    case Unknown(_) => state
  }

  /** Removing a product that is not in the cart changes nothing. */
  lemma RemoveAbsent(state: CartState, id: int)
    requires id !in state.items
    ensures Reduce(state, RemoveItem(id)) == state
  {
    assert state.items - {id} == state.items;
  }

  /** An update followed by a removal of the same product is the removal. */
  lemma UpdateThenRemove(state: CartState, id: int, patch: Item)
    ensures Reduce(Reduce(state, UpdateItem(id, patch)), RemoveItem(id)) == Reduce(state, RemoveItem(id))
  {
    var a := Reduce(Reduce(state, UpdateItem(id, patch)), RemoveItem(id));
    var b := Reduce(state, RemoveItem(id));
    assert a.items == b.items;
  }

  /** Applying the same patch twice is applying it once. */
  lemma UpdateIdempotent(state: CartState, id: int, patch: Item)
    ensures var once := Reduce(state, UpdateItem(id, patch));
            Reduce(once, UpdateItem(id, patch)) == once
  {
    var once := Reduce(state, UpdateItem(id, patch));
    var twice := Reduce(once, UpdateItem(id, patch));
    assert twice.items == once.items;
  }

  /** `item.quantity || 0` */
  function QuantityOrZero(item: Item): int
  {
    if item.quantity.Some? then item.quantity.value else 0
  }

  /** `!!item.giftWrap` */
  function GiftWrapped(item: Item): bool
  {
    item.giftWrap == Some(true)
  }

  // ---------------------------------------------------------------------
  // Totals

  /** The part of a catalog product the totals read. */
  datatype PricedProduct = PricedProduct(id: int, price: real)

  /** `products.find(p => p.id === id)`: the first product with that id. */
  function FindProduct(catalog: seq<PricedProduct>, id: int): (r: Option<PricedProduct>)
    ensures r.None? <==> forall i :: 0 <= i < |catalog| ==> catalog[i].id != id
    ensures r.Some? ==> r.value.id == id && r.value in catalog
    ensures r.Some? ==> exists i :: 0 <= i < |catalog| && catalog[i] == r.value &&
                                    forall j :: 0 <= j < i ==> catalog[j].id != id
  {
    if catalog == [] then None
    else if catalog[0].id == id then Some(catalog[0])
    else
      var r := FindProduct(catalog[1..], id);
      assert forall i :: 1 <= i < |catalog| ==> catalog[i] == catalog[1..][i - 1];
      if r.Some? then
        var i :| 0 <= i < |catalog[1..]| && catalog[1..][i] == r.value &&
                 forall j :: 0 <= j < i ==> catalog[1..][j].id != id;
        assert catalog[i + 1] == r.value;
        r
      else r
  }

  /** What one line adds to the subtotal: price times quantity, or nothing
      when the id is not in the catalog. */
  function LineAmount(catalog: seq<PricedProduct>, id: int, item: Item): real
  {
    var product := FindProduct(catalog, id);
    if product.Some? then product.value.price * (QuantityOrZero(item) as real) else 0.0
  }

  /** What one line adds for gift wrap: 3 per unit on a wrapped line whose id
      is in the catalog. */
  function WrapAmount(catalog: seq<PricedProduct>, id: int, item: Item): real
  {
    if FindProduct(catalog, id).Some? && GiftWrapped(item) then 3.0 * (QuantityOrZero(item) as real) else 0.0
  }

  /** A line adds the price of the first catalog product with its id times
      its quantity, and 3 per unit when wrapped. */
  lemma LineAmountMeaning(catalog: seq<PricedProduct>, id: int, item: Item, k: nat)
    requires k < |catalog| && catalog[k].id == id
    requires forall j :: 0 <= j < k ==> catalog[j].id != id
    ensures LineAmount(catalog, id, item) == catalog[k].price * (QuantityOrZero(item) as real)
    ensures WrapAmount(catalog, id, item) == if GiftWrapped(item) then 3.0 * (QuantityOrZero(item) as real) else 0.0
  {
    var r := FindProduct(catalog, id);
    assert r.Some? && r.value.id == id;
    var i :| 0 <= i < |catalog| && catalog[i] == r.value &&
             forall j :: 0 <= j < i ==> catalog[j].id != id;
    assert i == k;
  }

  /** A line whose id no catalog product has adds nothing. */
  lemma AbsentLineAmount(catalog: seq<PricedProduct>, id: int, item: Item)
    requires forall k :: 0 <= k < |catalog| ==> catalog[k].id != id
    ensures LineAmount(catalog, id, item) == 0.0 && WrapAmount(catalog, id, item) == 0.0
  {
  }

  function LineAmounts(catalog: seq<PricedProduct>, items: map<int, Item>): (m: map<int, real>)
    ensures m.Keys == items.Keys
  {
    map id | id in items :: LineAmount(catalog, id, items[id])
  }

  function WrapAmounts(catalog: seq<PricedProduct>, items: map<int, Item>): (m: map<int, real>)
    ensures m.Keys == items.Keys
  {
    map id | id in items :: WrapAmount(catalog, id, items[id])
  }

  lemma NonEmpty(ids: set<int>)
    requires ids != {}
    ensures exists id :: id in ids
  {
    if forall id :: id !in ids {
      assert false;
    }
  }

  /** The sum of the amounts of a finite set of ids, in no particular order. */
  ghost function Sum(ids: set<int>, amount: map<int, real>): real
    requires ids <= amount.Keys
    decreases ids
  {
    if ids == {} then 0.0
    else
      NonEmpty(ids);
      var id :| id in ids;
      amount[id] + Sum(ids - {id}, amount)
  }

  /** The sum does not depend on which element is taken first. */
  lemma {:induction false} SumRemove(ids: set<int>, amount: map<int, real>, id: int)
    requires ids <= amount.Keys && id in ids
    ensures Sum(ids, amount) == amount[id] + Sum(ids - {id}, amount)
    decreases ids
  {
    var first :| first in ids && Sum(ids, amount) == amount[first] + Sum(ids - {first}, amount);
    if first != id {
      SumRemove(ids - {first}, amount, id);
      SumRemove(ids - {id}, amount, first);
      assert ids - {first} - {id} == ids - {id} - {first};
    }
  }

  /** Sums over the same ids with the same amounts there are equal. */
  lemma {:induction false} SumSameTerms(ids: set<int>, a: map<int, real>, b: map<int, real>)
    requires ids <= a.Keys && ids <= b.Keys
    requires forall id :: id in ids ==> a[id] == b[id]
    ensures Sum(ids, a) == Sum(ids, b)
    decreases ids
  {
    if ids != {} {
      NonEmpty(ids);
      var id :| id in ids;
      SumRemove(ids, a, id);
      SumRemove(ids, b, id);
      SumSameTerms(ids - {id}, a, b);
    }
  }

  /** A cart line whose product is not in the catalog adds nothing to the
      subtotal or the gift-wrap total. */
  lemma UnknownProductSkipped(catalog: seq<PricedProduct>, items: map<int, Item>, id: int, item: Item)
    requires FindProduct(catalog, id).None? && id !in items
    ensures Sum(items[id := item].Keys, LineAmounts(catalog, items[id := item]))
            == Sum(items.Keys, LineAmounts(catalog, items))
    ensures Sum(items[id := item].Keys, WrapAmounts(catalog, items[id := item]))
            == Sum(items.Keys, WrapAmounts(catalog, items))
  {
    var bigger := items[id := item];
    assert bigger.Keys - {id} == items.Keys;
    var lines, wraps := LineAmounts(catalog, bigger), WrapAmounts(catalog, bigger);
    SumRemove(bigger.Keys, lines, id);
    SumRemove(bigger.Keys, wraps, id);
    SumSameTerms(items.Keys, lines, LineAmounts(catalog, items));
    SumSameTerms(items.Keys, wraps, WrapAmounts(catalog, items));
  }

  datatype Totals = Totals(subtotal: real, tax: real, shippingCost: real,
                           giftWrapTotal: real, discount: real, total: real)

  /** The rule applied once subtotal and gift wrap are summed. */
  function Finish(subtotal: real, giftWrapTotal: real, promo: string): (t: Totals)
    ensures t.subtotal == subtotal && t.giftWrapTotal == giftWrapTotal
    // free shipping from 100 on, otherwise 5
    ensures t.shippingCost == (if subtotal >= 100.0 then 0.0 else 5.0)
    ensures t.tax == subtotal * 0.08
    // SAVE10 takes 10% off the subtotal, FREESHIP takes off the shipping
    ensures promo == "SAVE10" ==> t.discount == subtotal * 0.1
    ensures promo == "FREESHIP" ==> t.discount == t.shippingCost
    ensures promo != "SAVE10" && promo != "FREESHIP" ==> t.discount == 0.0
    ensures t.total == t.subtotal + t.tax + t.giftWrapTotal + t.shippingCost - t.discount
  {
    var shippingCost := if subtotal >= 100.0 then 0.0 else 5.0;
    var tax := subtotal * 0.08;
    var discount := if promo == "SAVE10" then subtotal * 0.1
                    else if promo == "FREESHIP" then shippingCost
                    else 0.0;
    Totals(subtotal, tax, shippingCost, giftWrapTotal, discount,
           subtotal + tax + giftWrapTotal + shippingCost - discount)
  }

  /** FREESHIP makes the order cost exactly the goods, the tax and the wrap. */
  lemma FreeShippingTotal(subtotal: real, giftWrapTotal: real)
    ensures Finish(subtotal, giftWrapTotal, "FREESHIP").total == subtotal * 1.08 + giftWrapTotal
  {
  }

  /** With no valid promo the total never drops below the goods, tax and wrap,
      and SAVE10 never costs more than no promo. */
  lemma PromoNeverRaisesTotal(subtotal: real, giftWrapTotal: real, promo: string)
    requires subtotal >= 0.0
    ensures Finish(subtotal, giftWrapTotal, promo).total <= Finish(subtotal, giftWrapTotal, "").total
    ensures Finish(subtotal, giftWrapTotal, "").total >= subtotal * 1.08 + giftWrapTotal
  {
  }

  // ---------------------------------------------------------------------
  // The page

  class CartPage {
    var items: map<int, Item>
    var promo: string
    var promoInput: string
    var promoError: string

    /** `useReducer(cartReducer, { items: {}, promo: '' })` and the empty
        promo input and error. */
    constructor ()
      ensures items == map[] && promo == "" && promoInput == "" && promoError == ""
    {
      items, promo, promoInput, promoError := map[], "", "", "";
    }

    function State(): CartState
      reads this
    {
      CartState(items, promo)
    }

    method Dispatch(action: Action)
      modifies this
      ensures State() == Reduce(old(State()), action)
      ensures promoInput == old(promoInput) && promoError == old(promoError)
    {
      var next := Reduce(State(), action);
      items, promo := next.items, next.promo;
    }

    /** `handleQuantityChange`: the line must exist (the handler reads its
        quantity). Below 1 the line is removed, otherwise only its quantity is
        replaced. */
    method HandleQuantityChange(productId: int, change: int)
      requires productId in items
      modifies this
      ensures var newQuantity := QuantityOrZero(old(items[productId])) + change;
              && (newQuantity < 1 ==> items == old(items) - {productId})
              && (newQuantity >= 1 ==>
                    items == old(items)[productId := old(items[productId]).(quantity := Some(newQuantity))])
      ensures promo == old(promo) && promoInput == old(promoInput) && promoError == old(promoError)
    {
      var newQuantity := QuantityOrZero(items[productId]) + change;
      if newQuantity < 1 {
        Dispatch(RemoveItem(productId));
      } else {
        Dispatch(UpdateItem(productId, Item(Some(newQuantity), None, None)));
      }
    }

    /** `handleGiftWrapToggle`: flips the wrap flag of an existing line. */
    method HandleGiftWrapToggle(productId: int)
      requires productId in items
      modifies this
      ensures items == old(items)[productId := old(items[productId]).(giftWrap := Some(!GiftWrapped(old(items[productId]))))]
      ensures GiftWrapped(items[productId]) == !GiftWrapped(old(items[productId]))
      ensures promo == old(promo) && promoInput == old(promoInput) && promoError == old(promoError)
    {
      Dispatch(UpdateItem(productId, Item(None, None, Some(!GiftWrapped(items[productId])))));
    }

    /** `handleNotesChange` */
    method HandleNotesChange(productId: int, notes: string)
      modifies this
      ensures items == old(items)[productId := ItemAt(old(items), productId).(notes := Some(notes))]
      ensures promo == old(promo) && promoInput == old(promoInput) && promoError == old(promoError)
    {
      Dispatch(UpdateItem(productId, Item(None, Some(notes), None)));
    }

    /** `removeItem` */
    method Remove(productId: int)
      modifies this
      ensures items == old(items) - {productId}
      ensures promo == old(promo) && promoInput == old(promoInput) && promoError == old(promoError)
    {
      Dispatch(RemoveItem(productId));
    }

    /** `clearCart` */
    method Clear()
      modifies this
      ensures items == map[]
      ensures promo == old(promo) && promoInput == old(promoInput) && promoError == old(promoError)
    {
      Dispatch(ClearCart);
    }

    /** `applyPromo`: an input whose upper-cased form is a valid code is stored
        upper-cased and the input and error are cleared; anything else only
        sets the error. */
    method ApplyPromo()
      modifies this
      ensures Upper(old(promoInput)) in {"SAVE10", "FREESHIP"} ==>
                promo == Upper(old(promoInput)) && promoError == "" && promoInput == ""
      ensures Upper(old(promoInput)) !in {"SAVE10", "FREESHIP"} ==>
                promo == old(promo) && promoError == "Invalid promo code" && promoInput == old(promoInput)
      ensures items == old(items)
    {
      var validPromos := ["SAVE10", "FREESHIP"];
      var code := Upper(promoInput);
      if code in validPromos {
        Dispatch(SetPromo(code));
        promoError := "";
        promoInput := "";
      } else {
        promoError := "Invalid promo code";
      }
    }

    /** `calculateTotals`: one pass over the cart lines accumulating the
        subtotal and the gift-wrap total, then the shipping, tax and promo
        rule. Every line is assumed to carry a quantity. */
    method CalculateTotals(catalog: seq<PricedProduct>) returns (t: Totals)
      requires forall id :: id in items ==> items[id].quantity.Some?
      ensures t.subtotal == Sum(items.Keys, LineAmounts(catalog, items))
      ensures t.giftWrapTotal == Sum(items.Keys, WrapAmounts(catalog, items))
      ensures t == Finish(t.subtotal, t.giftWrapTotal, promo)
    {
      var subtotal, giftWrapTotal := 0.0, 0.0;
      var remaining := items.Keys;
      ghost var lines, wraps := LineAmounts(catalog, items), WrapAmounts(catalog, items);
      while remaining != {}
        invariant remaining <= items.Keys
        invariant subtotal + Sum(remaining, lines) == Sum(items.Keys, lines)
        invariant giftWrapTotal + Sum(remaining, wraps) == Sum(items.Keys, wraps)
        decreases remaining
      {
        NonEmpty(remaining);
        var productId :| productId in remaining;
        var item := items[productId];
        var product := FindProduct(catalog, productId);
        var amount, wrap := 0.0, 0.0;
        if product.Some? {
          amount := product.value.price * (item.quantity.value as real);
          if GiftWrapped(item) {
            wrap := 3.0 * (item.quantity.value as real);
          }
        }
        assert amount == lines[productId] && wrap == wraps[productId] by {
          assert QuantityOrZero(item) == item.quantity.value;
        }
        SumRemove(remaining, lines, productId);
        SumRemove(remaining, wraps, productId);
        subtotal, giftWrapTotal := subtotal + amount, giftWrapTotal + wrap;
        remaining := remaining - {productId};
      }
      t := Finish(subtotal, giftWrapTotal, promo);
    }
  }
}
