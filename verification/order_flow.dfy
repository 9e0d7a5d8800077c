/**
 * The browser's `createOrder` request as the order-creation function receives it: the
 * body holds only `purchase_units`, so the amounts PayPal is asked for are the cart's.
 */
module OrderFlow {
  import opened Wrappers
  import opened Storage
  import opened Cart
  import opened Orders
  import Checkout
  import Server = CreatePayPalOrder

  /** `JSON.stringify({ purchase_units })` as the function parses it. */
  function BrowserBody(units: seq<PurchaseUnit>): Server.RequestBody {
    Server.Parsed(None, None, None, Some(units))
  }

  /**
   * Whenever `createOrder` posts, the function forwards the cart's unit unchanged, so the
   * order charges the cart total plus its shipping, and PayPal returns to the site's own
   * success and cancel pages.
   */
  lemma BrowserRequestForwarded(slot: Slot<LineItem>, reply: Checkout.CreateReply, siteUrl: string)
    requires Checkout.CreateOrder(slot, reply).request.Some?
    ensures var payload := Server.Payload(BrowserBody(Checkout.CreateOrder(slot, reply).request.value), siteUrl);
            var cart := Load(slot);
            && payload.purchaseUnits == Checkout.CartUnits(cart)
            && ParseFixed2(payload.purchaseUnits[0].amount.value) == Total(cart) + Checkout.Shipping(Total(cart))
            && payload.context.returnUrl == siteUrl + "/success.html"
            && payload.context.cancelUrl == siteUrl + "/cancel.html"
  {
    var cart := Load(slot);
    Checkout.CartUnitsSound(cart);
    Server.DefaultPages(BrowserBody(Checkout.CartUnits(cart)), siteUrl);
  }
}
