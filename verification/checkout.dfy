/**
 * The PayPal button callbacks of the browser: `createOrder` builds the amount from the
 * stored cart and asks the order-creation function for an order; `onApprove`,
 * `onCancel` and `onError` decide whether the cart is cleared and where the page goes.
 */
module Checkout {
  import opened Wrappers
  import opened Storage
  import opened Cart
  import opened Orders
  import opened UriComponent
  import opened Backoff

  /** Free shipping strictly above 100.00; 10.00 otherwise. In cents. */
  const FreeShippingAbove: int := 10000
  const ShippingFee: int := 1000

  function Shipping(subtotal: int): (fee: int)
    ensures fee == 0 <==> subtotal > FreeShippingAbove
    ensures fee == ShippingFee <==> subtotal <= FreeShippingAbove
  {
    if subtotal > FreeShippingAbove then 0 else ShippingFee
  }

  /** The purchase unit for a subtotal and a shipping fee. */
  function UnitFor(subtotal: int, shipping: int): PurchaseUnit {
    PurchaseUnit(
      Amount(Usd, ToFixed2(subtotal + shipping),
             Breakdown(Money(Usd, ToFixed2(subtotal)), Some(Money(Usd, ToFixed2(shipping))))),
      None)
  }

  /** The single purchase unit `createOrder` sends for a cart. */
  function CartUnits(cart: seq<LineItem>): seq<PurchaseUnit> {
    [UnitFor(Total(cart), Shipping(Total(cart)))]
  }

  lemma UnitForSound(subtotal: int, shipping: int)
    ensures var u := UnitFor(subtotal, shipping);
            && AllUsd(u) && u.amount.breakdown.shipping.Some?
            && ParseFixed2(u.amount.breakdown.itemTotal.value) == subtotal
            && ParseFixed2(u.amount.breakdown.shipping.value.value) == shipping
            && ParseFixed2(u.amount.value) == subtotal + shipping
  {
    var u := UnitFor(subtotal, shipping);
    ReadsBack(u.amount.breakdown.itemTotal.value, subtotal);
    ReadsBack(u.amount.breakdown.shipping.value.value, shipping);
    ReadsBack(u.amount.value, subtotal + shipping);
  }

  lemma ReadsBack(value: string, cents: int)
    requires value == ToFixed2(cents)
    ensures ParseFixed2(value) == cents
  {
    ToFixed2RoundTrip(cents);
  }

  /**
   * The request amounts add up: one unit, all in USD, whose item total reads back as the
   * cart total, whose shipping is the fee for that total, and whose value is their sum.
   */
  lemma CartUnitsSound(cart: seq<LineItem>)
    ensures var units := CartUnits(cart);
            && |units| == 1 && AllUsd(units[0]) && units[0].amount.breakdown.shipping.Some?
            && ParseFixed2(units[0].amount.breakdown.itemTotal.value) == Total(cart)
            && ParseFixed2(units[0].amount.breakdown.shipping.value.value) == Shipping(Total(cart))
            && ParseFixed2(units[0].amount.value)
               == ParseFixed2(units[0].amount.breakdown.itemTotal.value)
                  + ParseFixed2(units[0].amount.breakdown.shipping.value.value)
  {
    UnitForSound(Total(cart), Shipping(Total(cart)));
  }

  /**
   * The charged total is not monotone in the subtotal: crossing the threshold by one cent
   * lowers it by the shipping fee less that cent.
   */
  lemma ThresholdDrop()
    ensures FreeShippingAbove + Shipping(FreeShippingAbove) == 11000
    ensures (FreeShippingAbove + 1) + Shipping(FreeShippingAbove + 1) == 10001
  {
  }

  /** How the create-order function answered: the request threw, the body was not JSON, or a JSON reply. */
  datatype CreateReply = CreateThrew | CreateUnparsable | CreateReplied(ok: bool, id: Option<string>)

  /** Why `createOrder` threw. */
  datatype CreateError = CartUnreadable | EmptyCart | RequestFailed | ResponseUnparsable | OrderCreationFailed

  /** What one `createOrder` call did: the units it posted, the alerts it raised, and its result. */
  datatype CreateCall = CreateCall(request: Option<seq<PurchaseUnit>>, alerts: seq<string>,
                                   result: Outcome<Option<string>, CreateError>)

  const EmptyCartAlert: string := "Your cart is empty."
  const CreateFailedAlert: string := "We couldn\U{2019}t create your PayPal order. Try again later."

  /**
   * `createOrder`: a cart that does not parse, or an empty one, throws before any request;
   * otherwise the cart's units are posted, and the order id of an ok JSON reply is
   * returned. Every throw raises the generic alert, after the empty-cart alert when the
   * cart is empty.
   */
  function CreateOrder(slot: Slot<LineItem>, reply: CreateReply): (call: CreateCall)
    ensures call.request.None? <==> slot.Corrupt? || Load(slot) == []
    ensures call.request.Some? ==> call.request.value == CartUnits(Load(slot))
    ensures call.result.Ok? <==> call.request.Some? && reply.CreateReplied? && reply.ok
    ensures call.result.Ok? ==> call.result.value == reply.id && call.alerts == []
    ensures call.result.Fail? ==> call.alerts != [] && call.alerts[|call.alerts| - 1] == CreateFailedAlert
  {
    if slot.Corrupt? then CreateCall(None, [CreateFailedAlert], Fail(CartUnreadable))
    else
      var cart := Load(slot);
      if cart == [] then CreateCall(None, [EmptyCartAlert, CreateFailedAlert], Fail(EmptyCart))
      else
        var request := Some(CartUnits(cart));
        match reply
        case CreateThrew => CreateCall(request, [CreateFailedAlert], Fail(RequestFailed))
        case CreateUnparsable => CreateCall(request, [CreateFailedAlert], Fail(ResponseUnparsable))
        case CreateReplied(ok, id) =>
          if ok then CreateCall(request, [], Ok(id))
          else CreateCall(request, [CreateFailedAlert], Fail(OrderCreationFailed))
  }

  /** How the capture function answered `onApprove`'s request. */
  datatype CaptureReply = CaptureThrew | CaptureUnparsable | CaptureReplied(ok: bool)

  const CancelPage: string := "/cancel.html"
  const SuccessPrefix: string := "/success.html?paypal_order_id="

  function SuccessPage(orderId: string): string {
    SuccessPrefix + EncodeURIComponent(orderId)
  }

  /**
   * The success page's query value is the order id alone: it holds no character that
   * would end it, and percent-decodes to the id's UTF-8 bytes.
   */
  lemma SuccessPageCarriesId(orderId: string)
    ensures var value := SuccessPage(orderId)[|SuccessPrefix|..];
            && (forall i :: 0 <= i < |value| ==>
                  value[i] != '&' && value[i] != '#' && value[i] != '=' && value[i] != ' ' && value[i] != '+')
            && PercentDecode(value) == Some(Utf8String(orderId))
  {
    var value := EncodeURIComponent(orderId);
    DropPrefix(SuccessPrefix, value);
    forall i | 0 <= i < |value|
      ensures value[i] != '&' && value[i] != '#' && value[i] != '=' && value[i] != ' ' && value[i] != '+'
    {
      SafeInQuery(value[i]);
    }
    DecodeEncode(orderId);
  }

  lemma DropPrefix(prefix: string, rest: string)
    ensures (prefix + rest)[|prefix|..] == rest
  {
  }

  lemma SuccessIsNotCancel(orderId: string)
    ensures SuccessPage(orderId) != CancelPage
  {
    assert SuccessPage(orderId)[1] != CancelPage[1];
  }

  /**
   * `onApprove`: only an ok capture clears the cart (when `removeItem` does not throw,
   * which `clearSucceeds` says) and goes to the success page with the encoded order id;
   * a failed, unparsable or thrown capture goes to the cancel page with the cart untouched.
   */
  method OnApprove(store: LocalStorage, orderId: string, capture: CaptureReply, clearSucceeds: bool)
    returns (location: string)
    modifies store
    ensures store.wishlist == old(store.wishlist)
    ensures capture == CaptureReplied(true) ==> location == SuccessPage(orderId)
    ensures capture == CaptureReplied(true) && clearSucceeds ==>
              store.cart == Absent && store.writes == old(store.writes) + [RemoveItem(CartKey)]
    ensures capture != CaptureReplied(true) || !clearSucceeds ==>
              store.cart == old(store.cart) && store.writes == old(store.writes)
    ensures capture != CaptureReplied(true) ==> location == CancelPage
  {
    if !capture.CaptureReplied? || !capture.ok {
      location := CancelPage;
      return;
    }
    if clearSucceeds {
      store.RemoveCart();
    }
    location := SuccessPage(orderId);
  }

  /** The button events that end a checkout. */
  datatype ButtonEvent =
    | Approved(orderId: string, capture: CaptureReply, clearSucceeds: bool)
    | Cancelled
    | Errored

  const PayPalErrorAlert: string := "An error occurred with PayPal. Please try again."

  /**
   * The end of a checkout: the success page is reached exactly by an approval whose
   * capture is ok, and only that path may touch the cart; `onCancel` and `onError` go to
   * the cancel page, `onError` after an alert.
   */
  method Finish(store: LocalStorage, event: ButtonEvent) returns (location: string, alerts: seq<string>)
    modifies store
    ensures store.wishlist == old(store.wishlist)
    ensures location == CancelPage || (event.Approved? && location == SuccessPage(event.orderId))
    ensures location != CancelPage <==> event.Approved? && event.capture == CaptureReplied(true)
    ensures store.cart != old(store.cart) ==> location != CancelPage
    ensures alerts == (if event.Errored? then [PayPalErrorAlert] else [])
  {
    alerts := [];
    match event {
      case Approved(orderId, capture, clearSucceeds) =>
        location := OnApprove(store, orderId, capture, clearSucceeds);
        if capture == CaptureReplied(true) {
          SuccessIsNotCancel(orderId);
        }
      case Cancelled =>
        location := CancelPage;
      case Errored =>
        alerts := [PayPalErrorAlert];
        location := CancelPage;
    }
  }
}
