/** The cart page: its totals (subtotal, free-shipping threshold, promo
    discount, total) and the handlers that change the quantity of a line,
    remove a line and apply the promo code. */
module CartPage {
  import opened Pricing
  import opened Text
  import opened Seqs

  /** Standard shipping is free strictly above this subtotal. */
  const FreeShippingOver: real := 100.0
  const FlatShipping: real := 10.0
  const PromoRate: real := 0.1
  /** The one promo code the page knows, compared after lower-casing the input. */
  const PromoCode: string := "welcome10"

  /** `subtotal > 100 ? 0 : 10`: free strictly above the threshold, the flat rate otherwise. */
  function Shipping(subtotal: real): (r: real)
    ensures r == 0.0 || r == FlatShipping
    ensures r == 0.0 <==> subtotal > FreeShippingOver
  {
    if subtotal > FreeShippingOver then 0.0 else FlatShipping
  }

  /** `promoApplied ? subtotal * 0.1 : 0`: a tenth of the subtotal, only with the promo. */
  function Discount(subtotal: real, promoApplied: bool): (r: real)
    ensures !promoApplied ==> r == 0.0
    ensures promoApplied ==> r * 10.0 == subtotal
    ensures subtotal >= 0.0 ==> 0.0 <= r <= subtotal
  {
    if promoApplied then subtotal * PromoRate else 0.0
  }

  /** `subtotal + shipping - discount`: the cart view has a discount and no
      tax, so a non-negative subtotal never gives a negative total, and the
      total never exceeds the subtotal plus the flat rate. */
  function Total(subtotal: real, promoApplied: bool): (r: real)
    ensures subtotal >= 0.0 ==> 0.0 <= r <= subtotal + FlatShipping
    ensures !promoApplied ==> r >= subtotal
  {
    subtotal + Shipping(subtotal) - Discount(subtotal, promoApplied)
  }

  datatype Totals = Totals(subtotal: real, shipping: real, discount: real, total: real)

  /** The four figures the order summary shows for a cart: the sum of the
      lines, its shipping and discount, and the total they make. */
  function CartTotals(items: seq<LineItem>, promoApplied: bool): (t: Totals)
    ensures t.subtotal == Sum(items)
    ensures t.shipping == Shipping(t.subtotal) && t.discount == Discount(t.subtotal, promoApplied)
    ensures t.total == t.subtotal + t.shipping - t.discount
  {
    var s := Subtotal(items);
    Totals(s, Shipping(s), Discount(s, promoApplied), Total(s, promoApplied))
  }

  /** Free shipping exactly above 100; a subtotal of exactly 100 still pays 10. */
  lemma ShippingThreshold(subtotal: real)
    ensures Shipping(subtotal) == 0.0 <==> subtotal > 100.0
    ensures Shipping(subtotal) != 0.0 ==> Shipping(subtotal) == 10.0
    ensures Shipping(100.0) == 10.0 && Shipping(100.01) == 0.0
  {
  }

  /** With well-formed lines the total is never negative, the discount is a
      tenth of the subtotal or nothing, and applying the promo lowers the
      total by exactly that tenth. */
  lemma {:induction false} TotalsWellBehaved(items: seq<LineItem>, promoApplied: bool)
    requires forall i :: 0 <= i < |items| ==> WellFormed(items[i])
    ensures var t := CartTotals(items, promoApplied);
      && t.subtotal == Sum(items)
      && t.total == t.subtotal + t.shipping - t.discount
      && 0.0 <= t.discount <= t.subtotal / 10.0
      && (t.discount == 0.0 <==> !promoApplied || t.subtotal == 0.0)
      && t.total >= 0.0
    ensures CartTotals(items, true).total == CartTotals(items, false).total - Subtotal(items) / 10.0
  {
    SubtotalNonNegative(items);
  }

  /** Some line of the cart has this id. */
  predicate HasId(items: seq<LineItem>, id: int)
    decreases |items|
  {
    items != [] && (items[0].id == id || HasId(items[1..], id))
  }

  /** The cart holds each product id at most once. */
  ghost predicate DistinctIds(items: seq<LineItem>)
    decreases |items|
  {
    items == [] || (!HasId(items[1..], items[0].id) && DistinctIds(items[1..]))
  }

  /** `items.map(item => item.id === id ? { ...item, quantity } : item)` */
  function SetQuantity(items: seq<LineItem>, id: int, quantity: int): (r: seq<LineItem>)
    ensures |r| == |items|
    ensures forall i :: 0 <= i < |items| ==>
      r[i] == if items[i].id == id then items[i].(quantity := quantity) else items[i]
    decreases |items|
  {
    if items == [] then []
    else
      [if items[0].id == id then items[0].(quantity := quantity) else items[0]]
      + SetQuantity(items[1..], id, quantity)
  }

  /** Changing quantities keeps the set of ids, hence their distinctness. */
  lemma {:induction false} SetQuantityKeepsIds(items: seq<LineItem>, id: int, quantity: int)
    ensures forall x :: HasId(SetQuantity(items, id, quantity), x) == HasId(items, x)
    ensures DistinctIds(items) ==> DistinctIds(SetQuantity(items, id, quantity))
    decreases |items|
  {
    if items != [] {
      SetQuantityKeepsIds(items[1..], id, quantity);
      assert SetQuantity(items, id, quantity)[1..] == SetQuantity(items[1..], id, quantity);
    }
  }

  /** `items.filter(item => item.id !== id)`: no line with the id is left,
      and every other line is. */
  function RemoveId(items: seq<LineItem>, id: int): (r: seq<LineItem>)
    ensures forall i :: 0 <= i < |r| ==> r[i].id != id && r[i] in items
    ensures forall i :: 0 <= i < |items| && items[i].id != id ==> items[i] in r
  {
    Filter((item: LineItem) => item.id != id, items)
  }

  /** Removal drops every line with the id, keeps every other line, keeps
      their order, and empties a cart whose only line it removes. */
  lemma RemoveIdSpec(items: seq<LineItem>, id: int)
    ensures var r := RemoveId(items, id);
      && (forall i :: 0 <= i < |r| ==> r[i].id != id && r[i] in items)
      && (forall i :: 0 <= i < |items| && items[i].id != id ==> items[i] in r)
      && IsSubseq(r, items)
      && (|items| == 1 && items[0].id == id ==> r == [])
  {
    FilterIsSubseq((item: LineItem) => item.id != id, items);
  }

  /** After removal an id is present exactly when it was present before and
      is not the removed one. */
  lemma {:induction false} RemoveIdHasId(items: seq<LineItem>, id: int, x: int)
    ensures HasId(RemoveId(items, id), x) <==> HasId(items, x) && x != id
    decreases |items|
  {
    if items != [] {
      RemoveIdHasId(items[1..], id, x);
    }
  }

  /** In a cart with distinct ids, removal shortens the cart by one exactly
      when the id is present, and the ids stay distinct. */
  lemma {:induction false} RemoveIdCount(items: seq<LineItem>, id: int)
    requires DistinctIds(items)
    ensures |RemoveId(items, id)| == |items| - (if HasId(items, id) then 1 else 0)
    ensures DistinctIds(RemoveId(items, id))
    decreases |items|
  {
    if items != [] {
      RemoveIdCount(items[1..], id);
      if items[0].id != id {
        RemoveIdHasId(items[1..], id, items[0].id);
      }
    }
  }

  /** `promoCode.toLowerCase() === "welcome10"` */
  function PromoAccepted(code: string): (r: bool)
    ensures r ==> |code| == |PromoCode|
    ensures r <==> |code| == |PromoCode| && forall i :: 0 <= i < |code| ==> LowerChar(code[i]) == PromoCode[i]
  {
    ToLower(code) == PromoCode
  }

  /** The code is matched without regard to case, and only that code matches. */
  lemma PromoExamples()
    ensures PromoAccepted("WELCOME10") && PromoAccepted("Welcome10") && PromoAccepted("welcome10")
    ensures !PromoAccepted("welcome") && !PromoAccepted("welcome10 ") && !PromoAccepted("")
  {
    assert ToLower("WELCOME10") == PromoCode;
    assert ToLower("Welcome10") == PromoCode;
    assert ToLower("welcome10") == PromoCode;
  }

  datatype PromoOutcome =
    | Disabled   // the Apply button is disabled: a promo is active or the field is empty
    | Applied
    | Rejected   // "Invalid promo code"

  function SampleItems(): seq<LineItem> {
    [ LineItem(1, "Classic Heritage Tee", 85.0, "Black", "M", 1, "/placeholder.svg?height=400&width=400"),
      LineItem(2, "Workwear Pocket Tee", 95.0, "Navy", "L", 2, "/placeholder.svg?height=400&width=400") ]
  }

  /** The sample cart: 85 x 1 + 95 x 2. Without the promo it costs 275 with
      free shipping; with the promo the discount is 27.50 and the total 247.50. */
  lemma SampleCartTotals()
    ensures CartTotals(SampleItems(), false) == Totals(275.0, 0.0, 0.0, 275.0)
    ensures CartTotals(SampleItems(), true) == Totals(275.0, 0.0, 27.5, 247.5)
  {
    var items := SampleItems();
    assert Sum(items[1..][1..]) == 0.0;
    assert Sum(items[1..]) == 190.0;
    assert Sum(items) == 275.0;
  }

  class Cart {
    var items: seq<LineItem>
    var promoCode: string
    var promoApplied: bool

    ghost predicate Valid()
      reads this
    {
      (forall i :: 0 <= i < |items| ==> WellFormed(items[i])) && DistinctIds(items)
    }

    constructor ()
      ensures Valid()
      ensures items == SampleItems() && promoCode == "" && !promoApplied
    {
      items := SampleItems();
      promoCode := "";
      promoApplied := false;
    }

    /** What the order summary shows right now. */
    function Summary(): Totals
      reads this
    {
      CartTotals(items, promoApplied)
    }

    /** `updateQuantity(id, newQuantity)`: below 1 nothing happens; otherwise
        every line with the id gets the new quantity and nothing else changes. */
    method UpdateQuantity(id: int, newQuantity: int)
      requires Valid()
      modifies this
      ensures Valid()
      ensures promoCode == old(promoCode) && promoApplied == old(promoApplied)
      ensures newQuantity < 1 ==> items == old(items)
      ensures newQuantity >= 1 ==> items == SetQuantity(old(items), id, newQuantity)
    {
      if newQuantity < 1 {
        return;
      }
      SetQuantityKeepsIds(items, id, newQuantity);
      items := SetQuantity(items, id, newQuantity);
    }

    /** `removeItem(id)`: the lines with another id stay, in order. */
    method RemoveItem(id: int)
      requires Valid()
      modifies this
      ensures Valid()
      ensures promoCode == old(promoCode) && promoApplied == old(promoApplied)
      ensures items == RemoveId(old(items), id)
      ensures |items| == |old(items)| - (if HasId(old(items), id) then 1 else 0)
    {
      RemoveIdCount(items, id);
      items := RemoveId(items, id);
    }

    /** Typing in the promo field; the field is disabled once a promo is active. */
    method EditPromoCode(value: string)
      modifies this
      ensures items == old(items) && promoApplied == old(promoApplied)
      ensures promoCode == if old(promoApplied) then old(promoCode) else value
    {
      if !promoApplied {
        promoCode := value;
      }
    }

    /** Pressing Apply. The button is disabled while a promo is active or the
        field is empty; otherwise the code is checked without regard to case,
        and only an accepted code changes the state. */
    method ApplyPromoCode() returns (outcome: PromoOutcome)
      modifies this
      ensures items == old(items) && promoCode == old(promoCode)
      ensures old(promoApplied) || old(promoCode) == "" ==> outcome == Disabled && promoApplied == old(promoApplied)
      ensures !old(promoApplied) && old(promoCode) != "" ==>
        outcome == (if PromoAccepted(old(promoCode)) then Applied else Rejected)
        && promoApplied == PromoAccepted(old(promoCode))
      ensures old(promoApplied) ==> promoApplied
    {
      if promoApplied || promoCode == "" {
        return Disabled;
      }
      if PromoAccepted(promoCode) {
        promoApplied := true;
        outcome := Applied;
      } else {
        outcome := Rejected;
      }
    }
  }
}
