/**
 * The order-creation function: it checks the method, reads the items or the
 * `purchase_units` from the body, totals the items, builds the order payload, and
 * passes PayPal's answer back. The access-token and order calls are inputs.
 */
module CreatePayPalOrder {
  import opened Wrappers
  import opened Text
  import opened Orders

  /**
   * One entry of `body.items`. An absent, null or other falsy property is None, except
   * that a falsy string may also be `Some("")`; prices are in cents.
   */
  datatype InItem = InItem(title: Option<string>, name: Option<string>, price: Option<int>,
                           quantity: Option<int>, currency: Option<string>)

  /** `value || fallback` for a string property. */
  function OrElse(value: Option<string>, fallback: string): (r: string)
    ensures value.Some? && value.value != "" ==> r == value.value
    ensures value.None? || value.value == "" ==> r == fallback
  {
    if value.Some? && value.value != "" then value.value else fallback
  }

  /** `Number(it.quantity || 1)`: a missing or zero quantity counts as one. */
  function Quantity(it: InItem): (q: int)
    ensures q != 0
    ensures it.quantity.Some? && it.quantity.value != 0 ==> q == it.quantity.value
  {
    match it.quantity
    case Some(n) => if n == 0 then 1 else n
    case None => 1
  }

  /** `Number(it.price || 0)`. */
  function Price(it: InItem): int {
    match it.price
    case Some(p) => p
    case None => 0
  }

  const MaxNameLength: nat := 127

  /** `String(it.title || it.name || 'Item').slice(0, 127)`. */
  function ItemName(it: InItem): (name: string)
    ensures var full := OrElse(it.title, OrElse(it.name, "Item"));
            && 0 < |name| <= MaxNameLength
            && name <= full
            && (|full| <= MaxNameLength ==> name == full)
  {
    var full := OrElse(it.title, OrElse(it.name, "Item"));
    if |full| <= MaxNameLength then full else full[..MaxNameLength]
  }

  /** The PayPal item for one input item. */
  function ToPayPalItem(it: InItem): PayPalItem {
    PayPalItem(ItemName(it), Money(OrElse(it.currency, Usd), ToFixed2(Price(it))), IntString(Quantity(it)))
  }

  /** The `payPalItems` array for the items. */
  function PayPalItems(items: seq<InItem>): (out: seq<PayPalItem>)
    ensures |out| == |items|
  {
    if items == [] then [] else PayPalItems(items[..|items| - 1]) + [ToPayPalItem(items[|items| - 1])]
  }

  /** One PayPal item per input item, in the same order. */
  lemma {:induction false} PayPalItemsAt(items: seq<InItem>, i: nat)
    requires i < |items|
    ensures PayPalItems(items)[i] == ToPayPalItem(items[i])
  {
    if i < |items| - 1 {
      PayPalItemsAt(items[..|items| - 1], i);
    }
  }

  /** `total += price * qty` over the items, in cents. */
  function ItemsTotal(items: seq<InItem>): int {
    if items == [] then 0
    else ItemsTotal(items[..|items| - 1]) + Price(items[|items| - 1]) * Quantity(items[|items| - 1])
  }

  /** Totals split over concatenation. */
  lemma {:induction false} ItemsTotalAppend(a: seq<InItem>, b: seq<InItem>)
    ensures ItemsTotal(a + b) == ItemsTotal(a) + ItemsTotal(b)
  {
    if b != [] {
      assert (a + b)[..|a + b| - 1] == a + b[..|b| - 1];
      ItemsTotalAppend(a, b[..|b| - 1]);
    } else {
      assert a + b == a;
    }
  }

  /**
   * An item adds its price times its quantity, and a zero or missing quantity adds the
   * price once; a missing price adds nothing.
   */
  lemma ItemContribution(items: seq<InItem>, it: InItem)
    ensures ItemsTotal(items + [it]) == ItemsTotal(items) + Price(it) * Quantity(it)
    ensures it.quantity.None? || it.quantity == Some(0) ==> ItemsTotal(items + [it]) == ItemsTotal(items) + Price(it)
    ensures it.price.None? ==> ItemsTotal(items + [it]) == ItemsTotal(items)
  {
    assert (items + [it])[..|items + [it]| - 1] == items;
  }

  /** Each PayPal item reads back as its input's price and quantity, in its input's currency or USD. */
  lemma ToPayPalItemSound(it: InItem)
    ensures ParseFixed2(ToPayPalItem(it).unitAmount.value) == Price(it)
    ensures ParseInt(ToPayPalItem(it).quantity) == Quantity(it)
    ensures ToPayPalItem(it).unitAmount.currencyCode == if it.currency.Some? && it.currency.value != "" then it.currency.value else Usd
  {
    ToFixed2RoundTrip(Price(it));
    IntStringRoundTrip(Quantity(it));
  }

  /**
   * The loop over `items`: one PayPal item per input item, in order, and the running
   * total of price times quantity.
   */
  method BuildItems(items: seq<InItem>) returns (total: int, out: seq<PayPalItem>)
    ensures total == ItemsTotal(items)
    ensures out == PayPalItems(items)
  {
    total := 0;
    out := [];
    var i := 0;
    while i < |items|
      invariant 0 <= i <= |items|
      invariant total == ItemsTotal(items[..i])
      invariant out == PayPalItems(items[..i])
    {
      var it := items[i];
      var qty := Quantity(it);
      var price := Price(it);
      assert items[..i + 1][..i] == items[..i];
      total := total + price * qty;
      out := out + [ToPayPalItem(it)];
      i := i + 1;
    }
    assert items[..i] == items;
  }

  /** The parsed request body; a body that does not parse, or parses to null, is `Malformed`. */
  datatype RequestBody =
    | NoBody
    | Malformed(message: string)
    | Parsed(items: Option<seq<InItem>>, returnUrl: Option<string>, cancelUrl: Option<string>,
             purchaseUnits: Option<seq<PurchaseUnit>>)

  datatype Event = Event(httpMethod: string, body: RequestBody)

  /** What the handler reads from the body: an absent body reads as `{}`. */
  function Fields(body: RequestBody): (r: RequestBody)
    requires !body.Malformed?
    ensures r.Parsed?
  {
    if body.NoBody? then Parsed(None, None, None, None) else body
  }

  /** `application_context` of the order. */
  datatype AppContext = AppContext(brandName: string, landingPage: string, userAction: string,
                                   returnUrl: string, cancelUrl: string)

  datatype OrderPayload = OrderPayload(intent: string, purchaseUnits: seq<PurchaseUnit>, context: AppContext)

  /** The purchase units: the body's own when given, else one unit for the items. */
  function Units(body: RequestBody): seq<PurchaseUnit>
    requires body.Parsed?
  {
    if body.purchaseUnits.Some? then body.purchaseUnits.value
    else
      var items := body.items.GetOr([]);
      var value := ToFixed2(ItemsTotal(items));
      [PurchaseUnit(Amount(Usd, value, Breakdown(Money(Usd, value), None)),
                    Some(PayPalItems(items)))]
  }

  function Payload(body: RequestBody, siteUrl: string): OrderPayload
    requires body.Parsed?
  {
    OrderPayload("CAPTURE", Units(body),
      AppContext("TrendAura Social", "NO_PREFERENCE", "PAY_NOW",
                 OrElse(body.returnUrl, siteUrl + "/success.html"),
                 OrElse(body.cancelUrl, siteUrl + "/cancel.html")))
  }

  /** A supplied `purchase_units` is sent as it is, however it adds up. */
  lemma SuppliedUnitsVerbatim(body: RequestBody, siteUrl: string)
    requires body.Parsed? && body.purchaseUnits.Some?
    ensures Payload(body, siteUrl).purchaseUnits == body.purchaseUnits.value
  {
  }

  /**
   * Without `purchase_units`, one unit is sent: in USD, with value and item total both
   * reading back as the items' total, and one PayPal item per input item, in order. A
   * missing or non-array `items` gives a zero total and no items.
   */
  lemma BuiltUnitSound(body: RequestBody, siteUrl: string)
    requires body.Parsed? && body.purchaseUnits.None?
    ensures var units := Payload(body, siteUrl).purchaseUnits;
            var items := body.items.GetOr([]);
            && |units| == 1
            && units[0].amount.currencyCode == Usd
            && units[0].amount.breakdown.itemTotal == Money(Usd, units[0].amount.value)
            && units[0].amount.breakdown.shipping.None?
            && ParseFixed2(units[0].amount.value) == ItemsTotal(items)
            && units[0].items.Some? && |units[0].items.value| == |items|
            && (forall i :: 0 <= i < |items| ==> units[0].items.value[i] == ToPayPalItem(items[i]))
    ensures body.items.None? ==> ParseFixed2(Payload(body, siteUrl).purchaseUnits[0].amount.value) == 0
  {
    var items := body.items.GetOr([]);
    ToFixed2RoundTrip(ItemsTotal(items));
    forall i | 0 <= i < |items| ensures PayPalItems(items)[i] == ToPayPalItem(items[i]) {
      PayPalItemsAt(items, i);
    }
  }

  /** The return and cancel pages default to the site's success and cancel pages. */
  lemma DefaultPages(body: RequestBody, siteUrl: string)
    requires body.Parsed?
    ensures var context := Payload(body, siteUrl).context;
            && (body.returnUrl.None? ==> context.returnUrl == siteUrl + "/success.html")
            && (body.cancelUrl.None? ==> context.cancelUrl == siteUrl + "/cancel.html")
            && (body.returnUrl.Some? && body.returnUrl.value != "" ==> context.returnUrl == body.returnUrl.value)
            && (body.cancelUrl.Some? && body.cancelUrl.value != "" ==> context.cancelUrl == body.cancelUrl.value)
            && Payload(body, siteUrl).intent == "CAPTURE"
  {
  }

  /** What `getAccessToken` gives: a token, a non-ok reply's JSON, or a thrown error's message. */
  datatype TokenOutcome = Token(access: string) | TokenRejected(json: string) | TokenThrew(message: string)

  /**
   * What the order call gives: the message of an error thrown by the request or by
   * parsing its reply, or the status and JSON of the reply.
   */
  datatype OrderReply = OrderThrew(message: string) | OrderReplied(status: int, json: string)

  /** The remote calls the handler makes, in order. */
  datatype Call = TokenRequest | OrderRequest(payload: OrderPayload, bearer: string)

  datatype ResponseBody = ErrorJson(error: string) | ProviderJson(json: string)

  datatype Response = Response(statusCode: int, body: ResponseBody)

  const TokenFailurePrefix: string := "Failed to get PayPal access token: "

  function TokenError(t: TokenOutcome): string
    requires !t.Token?
  {
    match t
    case TokenRejected(json) => TokenFailurePrefix + json
    case TokenThrew(message) => message
  }

  predicate Ok(status: int) { 200 <= status <= 299 }

  /**
   * `exports.handler`: a method other than POST is answered 405 with no remote call; a
   * malformed body or a failed token request ends in 500; otherwise the payload is posted
   * with the token, and PayPal's status and JSON are passed back, with 200 for any ok
   * status.
   */
  method Handle(event: Event, siteUrl: string, token: TokenOutcome, reply: OrderReply)
    returns (response: Response, calls: seq<Call>)
    ensures event.httpMethod != "POST" ==>
              response == Response(405, ErrorJson("Method Not Allowed")) && calls == []
    ensures event.httpMethod == "POST" && event.body.Malformed? ==>
              response == Response(500, ErrorJson(event.body.message)) && calls == []
    ensures event.httpMethod == "POST" && !event.body.Malformed? && !token.Token? ==>
              response == Response(500, ErrorJson(TokenError(token))) && calls == [TokenRequest]
    ensures event.httpMethod == "POST" && !event.body.Malformed? && token.Token? ==>
              && calls == [TokenRequest, OrderRequest(Payload(Fields(event.body), siteUrl), token.access)]
              && response == match reply
                 case OrderThrew(message) => Response(500, ErrorJson(message))
                 case OrderReplied(status, json) =>
                   Response(if Ok(status) then 200 else status, ProviderJson(json))
  {
    calls := [];
    if event.httpMethod != "POST" {
      response := Response(405, ErrorJson("Method Not Allowed"));
      return;
    }
    if event.body.Malformed? {
      response := Response(500, ErrorJson(event.body.message));
      return;
    }
    var body := Fields(event.body);
    var items := body.items.GetOr([]);
    var total, payPalItems := BuildItems(items);
    var units;
    if body.purchaseUnits.Some? {
      units := body.purchaseUnits.value;
    } else {
      var value := ToFixed2(total);
      units := [PurchaseUnit(Amount(Usd, value, Breakdown(Money(Usd, value), None)), Some(payPalItems))];
    }
    calls := calls + [TokenRequest];
    if !token.Token? {
      response := Response(500, ErrorJson(TokenError(token)));
      return;
    }
    var payload := OrderPayload("CAPTURE", units,
      AppContext("TrendAura Social", "NO_PREFERENCE", "PAY_NOW",
                 OrElse(body.returnUrl, siteUrl + "/success.html"),
                 OrElse(body.cancelUrl, siteUrl + "/cancel.html")));
    assert payload == Payload(body, siteUrl);
    calls := calls + [OrderRequest(payload, token.access)];
    match reply {
      case OrderThrew(message) =>
        response := Response(500, ErrorJson(message));
      case OrderReplied(status, json) =>
        if Ok(status) {
          response := Response(200, ProviderJson(json));
        } else {
          response := Response(status, ProviderJson(json));
        }
    }
  }
}
