/** The checkout page's order summary: standard or express shipping, 8% tax
    on the undiscounted subtotal, and a total with no discount term. */
module CheckoutPage {
  import opened Pricing
  import CartPage

  const ExpressShipping: real := 15.0
  const TaxRate: real := 0.08

  /** `shippingMethod === "express" ? 15 : subtotal > 100 ? 0 : 10`; any
      method other than "express" is charged as standard. */
  function Shipping(shippingMethod: string, subtotal: real): (r: real)
    ensures shippingMethod == "express" ==> r == ExpressShipping
    ensures shippingMethod != "express" ==> (r == 0.0 <==> subtotal > 100.0) && (r == 0.0 || r == 10.0)
  {
    if shippingMethod == "express" then ExpressShipping
    else if subtotal > 100.0 then 0.0 else 10.0
  }

  /** `subtotal * 0.08`: eight hundredths of the subtotal, never more than it. */
  function Tax(subtotal: real): (r: real)
    ensures r * 100.0 == subtotal * 8.0
    ensures subtotal >= 0.0 ==> 0.0 <= r <= subtotal
  {
    subtotal * TaxRate
  }

  datatype Summary = Summary(subtotal: real, shipping: real, tax: real, total: real)

  /** The summary the page derives from its items and the selected method:
      the sum of the lines, its shipping and tax, and a total of the three. */
  function OrderSummary(items: seq<LineItem>, shippingMethod: string): (o: Summary)
    ensures o.subtotal == Sum(items)
    ensures o.shipping == Shipping(shippingMethod, o.subtotal) && o.tax == Tax(o.subtotal)
    ensures o.total == o.subtotal + o.shipping + o.tax
  {
    var s := Subtotal(items);
    var sh := Shipping(shippingMethod, s);
    var tx := Tax(s);
    Summary(s, sh, tx, s + sh + tx)
  }

  /** The price shown next to the standard option. */
  function StandardLabel(subtotal: real): string {
    if subtotal > 100.0 then "Free" else "$10.00"
  }

  /** The order summary's figures: the subtotal is the sum of the lines,
      express costs 15 whatever the subtotal, standard is free exactly above
      100, the tax is 8% of the undiscounted subtotal and the total adds the
      three with no discount. */
  lemma {:induction false} OrderSummaryFigures(items: seq<LineItem>, shippingMethod: string)
    requires forall i :: 0 <= i < |items| ==> WellFormed(items[i])
    ensures var o := OrderSummary(items, shippingMethod);
      && o.subtotal == Sum(items)
      && (shippingMethod == "express" ==> o.shipping == 15.0)
      && (shippingMethod != "express" ==> (o.shipping == 0.0 <==> o.subtotal > 100.0))
      && (shippingMethod != "express" && o.subtotal <= 100.0 ==> o.shipping == 10.0)
      && o.tax == o.subtotal * 8.0 / 100.0
      && o.total == o.subtotal + o.shipping + o.tax
      && o.total >= o.subtotal >= 0.0
  {
    SubtotalNonNegative(items);
  }

  /** The standard option reads "Free" exactly when standard shipping costs nothing. */
  lemma StandardLabelFree(subtotal: real)
    ensures StandardLabel(subtotal) == "Free" <==> Shipping("standard", subtotal) == 0.0
  {
  }

  /** Checkout and cart agree on standard shipping, and the checkout total is
      the undiscounted cart total plus tax: the two pages never combine a
      discount with tax. */
  lemma CheckoutVersusCart(items: seq<LineItem>)
    ensures Shipping("standard", Subtotal(items)) == CartPage.Shipping(Subtotal(items))
    ensures OrderSummary(items, "standard").total
      == CartPage.CartTotals(items, false).total + Tax(Subtotal(items))
  {
  }

  /** The page's sample cart (85 x 1, 95 x 2) with standard shipping. */
  lemma SampleOrderSummary()
    ensures OrderSummary(CartPage.SampleItems(), "standard") == Summary(275.0, 0.0, 22.0, 297.0)
    ensures OrderSummary(CartPage.SampleItems(), "express") == Summary(275.0, 15.0, 22.0, 312.0)
  {
    CartPage.SampleCartTotals();
  }

  /** A 180.00 cart sent express: shipping 15.00, tax 14.40, total 209.40. */
  lemma ExpressExample()
    ensures var items := [LineItem(7, "Tee", 90.0, "Black", "M", 2, "")];
      OrderSummary(items, "express") == Summary(180.0, 15.0, 14.4, 209.4)
  {
    var items := [LineItem(7, "Tee", 90.0, "Black", "M", 2, "")];
    assert Sum(items[1..]) == 0.0;
  }
}
