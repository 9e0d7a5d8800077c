/**
 * The browser's local key-value store as the cart and wishlist pages use it: the keys
 * 'cart' and 'wishlist', each holding a JSON array of item records. JSON is not modelled:
 * a slot is absent, holds a list, or holds text that does not parse.
 */
module Storage {
  import opened Wrappers

  /** A product record as the pages save it (a wishlist entry). Prices are integer cents. */
  datatype Item = Item(id: string, title: string, price: int, currency: string, images: seq<string>)

  /** A cart entry: the product's fields plus `quantity`. */
  datatype LineItem = LineItem(item: Item, quantity: int) {
    function Id(): string { item.id }
  }

  function ItemId(it: Item): string { it.id }
  function LineId(li: LineItem): string { li.item.id }

  /** What `localStorage.getItem(key)` can hold. */
  datatype Slot<T> = Absent | Corrupt | Stored(items: seq<T>)

  /**
   * `JSON.parse(localStorage.getItem(key) || '[]')` guarded by a catch that yields `[]`:
   * a missing key and an unparsable value both read as the empty list.
   */
  function Load<T>(slot: Slot<T>): seq<T> {
    match slot
    case Stored(items) => items
    case _ => []
  }

  /** The index `Array.prototype.find` stops at when it looks for `id`, if any entry has it. */
  function FirstIndex<T>(s: seq<T>, idOf: T -> string, id: string): (r: Option<nat>)
    ensures r.Some? ==> r.value < |s| && idOf(s[r.value]) == id
                        && forall j :: 0 <= j < r.value ==> idOf(s[j]) != id
    ensures r.None? <==> forall j :: 0 <= j < |s| ==> idOf(s[j]) != id
  {
    if s == [] then None
    else if idOf(s[0]) == id then Some(0)
    else match FirstIndex(s[1..], idOf, id)
      case Some(k) => Some(k + 1)
      case None => None
  }

  /** The linear search behind `list.find(x => x.id === id)`. */
  method Find<T>(s: seq<T>, idOf: T -> string, id: string) returns (r: Option<nat>)
    ensures r == FirstIndex(s, idOf, id)
  {
    var i := 0;
    while i < |s| && idOf(s[i]) != id
      invariant 0 <= i <= |s|
      invariant forall j :: 0 <= j < i ==> idOf(s[j]) != id
    {
      i := i + 1;
    }
    r := if i < |s| then Some(i) else None;
  }

  /** At most one entry per id. */
  predicate UniqueIds<T>(s: seq<T>, idOf: T -> string) {
    forall i, j :: 0 <= i < j < |s| ==> idOf(s[i]) != idOf(s[j])
  }

  datatype Key = CartKey | WishlistKey

  /** One call of `setItem` or `removeItem`, in the order the pages make them. */
  datatype Write = SetItem(key: Key) | RemoveItem(key: Key)

  class LocalStorage {
    var cart: Slot<LineItem>
    var wishlist: Slot<Item>
    /** Every write made so far, oldest first. */
    var writes: seq<Write>

    constructor(cart: Slot<LineItem>, wishlist: Slot<Item>)
      ensures this.cart == cart && this.wishlist == wishlist && writes == []
    {
      this.cart := cart;
      this.wishlist := wishlist;
      writes := [];
    }

    /** `localStorage.setItem('cart', JSON.stringify(items))`. */
    method SetCart(items: seq<LineItem>)
      modifies this
      ensures cart == Stored(items) && wishlist == old(wishlist)
      ensures writes == old(writes) + [SetItem(CartKey)]
    {
      cart := Stored(items);
      writes := writes + [SetItem(CartKey)];
    }

    /** `localStorage.setItem('wishlist', JSON.stringify(items))`. */
    method SetWishlist(items: seq<Item>)
      modifies this
      ensures wishlist == Stored(items) && cart == old(cart)
      ensures writes == old(writes) + [SetItem(WishlistKey)]
    {
      wishlist := Stored(items);
      writes := writes + [SetItem(WishlistKey)];
    }

    /** `localStorage.removeItem('cart')`. */
    method RemoveCart()
      modifies this
      ensures cart == Absent && wishlist == old(wishlist)
      ensures writes == old(writes) + [RemoveItem(CartKey)]
    {
      cart := Absent;
      writes := writes + [RemoveItem(CartKey)];
    }
  }
}
