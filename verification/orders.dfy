/**
 * The pieces of a PayPal order both the browser and the order-creation function build:
 * amounts as `toFixed(2)` strings and the `purchase_units` entries that carry them.
 * Amounts are held as whole cents.
 */
module Orders {
  import opened Wrappers
  import opened Text

  /** `(cents / 100).toFixed(2)`: the sign, the whole units, a point and exactly two digits. */
  function ToFixed2(cents: int): string {
    if cents < 0 then "-" + Fixed2Nat(-cents) else Fixed2Nat(cents)
  }

  function Fixed2Nat(n: nat): (s: string)
    ensures |s| >= 4 && s[0] != '-'
  {
    NatString(n / 100) + "." + [DigitChar(n % 100 / 10), DigitChar(n % 100 % 10)]
  }

  /** Reads a `toFixed(2)` string back as cents. */
  function ParseFixed2(s: string): int {
    if |s| > 0 && s[0] == '-' then 0 - ParseFixed2Nat(s[1..]) as int else ParseFixed2Nat(s) as int
  }

  function ParseFixed2Nat(s: string): nat {
    if |s| < 3 then 0
    else 100 * ParseNat(s[..|s| - 3]) + 10 * DigitValue(s[|s| - 2]) + DigitValue(s[|s| - 1])
  }

  lemma DigitValueChar(d: nat)
    requires d < 10
    ensures DigitValue(DigitChar(d)) == d
  {
  }

  lemma ParseFixed2NatParts(whole: string, tens: char, units: char)
    ensures ParseFixed2Nat(whole + "." + [tens, units])
            == 100 * ParseNat(whole) + 10 * DigitValue(tens) + DigitValue(units)
  {
    var s := whole + "." + [tens, units];
    assert s[..|s| - 3] == whole;
  }

  lemma CentsDigits(n: nat)
    ensures n == 100 * (n / 100) + 10 * (n % 100 / 10) + n % 100 % 10
  {
    var r := n % 100;
    assert n == 100 * (n / 100) + r;
    assert r == 10 * (r / 10) + r % 10;
  }

  lemma Fixed2NatRoundTrip(n: nat)
    ensures ParseFixed2Nat(Fixed2Nat(n)) == n
  {
    ParseFixed2NatParts(NatString(n / 100), DigitChar(n % 100 / 10), DigitChar(n % 100 % 10));
    ParseNatString(n / 100);
    DigitValueChar(n % 100 / 10);
    DigitValueChar(n % 100 % 10);
    CentsDigits(n);
  }

  lemma NegativeRoundTrip(n: nat)
    requires n > 0
    ensures ParseFixed2(ToFixed2(0 - n)) == 0 - n
  {
    assert ToFixed2(0 - n) == "-" + Fixed2Nat(n);
    assert ("-" + Fixed2Nat(n))[1..] == Fixed2Nat(n);
    Fixed2NatRoundTrip(n);
  }

  lemma NonNegativeRoundTrip(n: nat)
    ensures ParseFixed2(ToFixed2(n)) == n
  {
    Fixed2NatRoundTrip(n);
  }

  /** `toFixed(2)` on a whole number of cents loses nothing. */
  lemma ToFixed2RoundTrip(cents: int)
    ensures ParseFixed2(ToFixed2(cents)) == cents
  {
    if cents < 0 {
      NegativeRoundTrip(-cents);
    } else {
      NonNegativeRoundTrip(cents);
    }
  }

  /** `{ currency_code, value }`. */
  datatype Money = Money(currencyCode: string, value: string)

  /** `breakdown`: the item total and, when given, the shipping. */
  datatype Breakdown = Breakdown(itemTotal: Money, shipping: Option<Money>)

  datatype Amount = Amount(currencyCode: string, value: string, breakdown: Breakdown)

  /** One line of `items`: the name, the unit price and the quantity as a string. */
  datatype PayPalItem = PayPalItem(name: string, unitAmount: Money, quantity: string)

  /** One entry of `purchase_units`; `items` is absent in the browser's request. */
  datatype PurchaseUnit = PurchaseUnit(amount: Amount, items: Option<seq<PayPalItem>>)

  const Usd: string := "USD"

  /** Every currency code of the unit, its breakdown and its items is USD. */
  predicate AllUsd(u: PurchaseUnit) {
    && u.amount.currencyCode == Usd
    && u.amount.breakdown.itemTotal.currencyCode == Usd
    && (u.amount.breakdown.shipping.Some? ==> u.amount.breakdown.shipping.value.currencyCode == Usd)
    && (u.items.Some? ==> forall i :: 0 <= i < |u.items.value| ==> u.items.value[i].unitAmount.currencyCode == Usd)
  }
}
