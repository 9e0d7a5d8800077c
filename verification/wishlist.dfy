/** The wishlist page's store operations: read, write, add without duplicates, remove by id, and move to the cart. */
module Wishlist {
  import opened Wrappers
  import opened Storage
  import Cart

  /** `getWishlist`: the stored list; a missing key or an unparsable value reads as the empty wishlist. */
  method GetWishlist(store: LocalStorage) returns (list: seq<Item>)
    ensures store.wishlist.Stored? ==> list == store.wishlist.items
    ensures !store.wishlist.Stored? ==> list == []
  {
    match store.wishlist {
      case Stored(items) => list := items;
      case _ => list := [];
    }
  }

  /** `saveWishlist`: replaces the whole stored wishlist. */
  method SaveWishlist(store: LocalStorage, list: seq<Item>)
    modifies store
    ensures store.wishlist == Stored(list) && store.cart == old(store.cart)
    ensures store.writes == old(store.writes) + [SetItem(WishlistKey)]
  {
    store.SetWishlist(list);
  }

  predicate HasId(list: seq<Item>, id: string) {
    exists j :: 0 <= j < |list| && list[j].id == id
  }

  /** The list `addToWishlist` leaves: unchanged when the id is already there, else the product appended. */
  function WishAdd(list: seq<Item>, product: Item): seq<Item> {
    if FirstIndex(list, ItemId, product.id).Some? then list else list + [product]
  }

  /**
   * `addToWishlist`: when no entry has the product's id, saves the list `WishAdd` gives
   * (the product appended); otherwise writes nothing.
   */
  method AddToWishlist(store: LocalStorage, product: Item)
    modifies store
    ensures HasId(Load(old(store.wishlist)), product.id) ==>
              store.wishlist == old(store.wishlist) && store.writes == old(store.writes)
    ensures !HasId(Load(old(store.wishlist)), product.id) ==>
              store.wishlist == Stored(WishAdd(Load(old(store.wishlist)), product))
              && store.writes == old(store.writes) + [SetItem(WishlistKey)]
    ensures store.cart == old(store.cart)
  {
    var list := GetWishlist(store);
    var found := Find(list, ItemId, product.id);
    if found.None? {
      list := list + [product];
      SaveWishlist(store, list);
    } else {
      assert list[found.value].id == product.id;
    }
  }

  /** Adding an id that is already present changes nothing, so adding twice leaves one entry. */
  lemma WishAddIdempotent(list: seq<Item>, product: Item)
    ensures HasId(WishAdd(list, product), product.id)
    ensures WishAdd(WishAdd(list, product), product) == WishAdd(list, product)
  {
    var once := WishAdd(list, product);
    if FirstIndex(list, ItemId, product.id).None? {
      assert once[|list|].id == product.id;
    }
    assert HasId(once, product.id);
  }

  lemma WishAddKeepsUniqueIds(list: seq<Item>, product: Item)
    requires UniqueIds(list, ItemId)
    ensures UniqueIds(WishAdd(list, product), ItemId)
  {
  }

  /** `list.filter(item => item.id !== id)`. */
  function Without(list: seq<Item>, id: string): (r: seq<Item>)
    ensures |r| <= |list|
    ensures forall i :: 0 <= i < |r| ==> r[i].id != id
  {
    if list == [] then [] else (if list[0].id == id then [] else [list[0]]) + Without(list[1..], id)
  }

  /** Filtering distributes over concatenation: the kept entries stay in their original order. */
  lemma {:induction false} WithoutAppend(a: seq<Item>, b: seq<Item>, id: string)
    ensures Without(a + b, id) == Without(a, id) + Without(b, id)
  {
    if a == [] {
      assert a + b == b;
    } else {
      assert (a + b)[1..] == a[1..] + b;
      WithoutAppend(a[1..], b, id);
    }
  }

  /** An entry survives removal exactly when it was there and has another id. */
  lemma {:induction false} WithoutMembership(list: seq<Item>, id: string, x: Item)
    ensures x in Without(list, id) <==> x in list && x.id != id
  {
    if list != [] {
      WithoutMembership(list[1..], id, x);
      assert list == [list[0]] + list[1..];
    }
  }

  lemma {:induction false} WithoutAbsentId(list: seq<Item>, id: string)
    requires !HasId(list, id)
    ensures Without(list, id) == list
  {
    if list != [] {
      assert !HasId(list[1..], id) by {
        forall j | 0 <= j < |list[1..]| ensures list[1..][j].id != id {
          assert list[1..][j] == list[j + 1];
        }
      }
      WithoutAbsentId(list[1..], id);
      assert list == [list[0]] + list[1..];
    }
  }

  /** `removeFromWishlist`: keeps the entries with another id, in order, and saves (even when nothing matched). */
  method RemoveFromWishlist(store: LocalStorage, id: string)
    modifies store
    ensures store.wishlist == Stored(Without(Load(old(store.wishlist)), id))
    ensures store.cart == old(store.cart)
    ensures store.writes == old(store.writes) + [SetItem(WishlistKey)]
  {
    var list := GetWishlist(store);
    list := Without(list, id);
    SaveWishlist(store, list);
  }

  /** `(quantity || 1) + 1`: a zero quantity counts as one. */
  function Incremented(quantity: int): int {
    (if quantity == 0 then 1 else quantity) + 1
  }

  /** The cart `moveToCart` writes: the entry with the id is incremented, or a copy of the item is appended with quantity 1. */
  function MoveInto(cart: seq<LineItem>, item: Item): seq<LineItem> {
    match FirstIndex(cart, LineId, item.id)
    case Some(i) => cart[i := LineItem(cart[i].item, Incremented(cart[i].quantity))]
    case None => cart + [LineItem(item, 1)]
  }

  lemma MoveIntoExisting(cart: seq<LineItem>, item: Item, i: nat)
    requires i < |cart| && cart[i].Id() == item.id
    requires forall j :: 0 <= j < i ==> cart[j].Id() != item.id
    ensures |MoveInto(cart, item)| == |cart|
    ensures MoveInto(cart, item)[i].quantity == (if cart[i].quantity == 0 then 1 else cart[i].quantity) + 1
    ensures MoveInto(cart, item)[i].item == cart[i].item
    ensures forall j :: 0 <= j < |cart| && j != i ==> MoveInto(cart, item)[j] == cart[j]
  {
  }

  lemma MoveIntoNew(cart: seq<LineItem>, item: Item)
    requires forall j :: 0 <= j < |cart| ==> cart[j].Id() != item.id
    ensures MoveInto(cart, item) == cart + [LineItem(item, 1)]
  {
  }

  /**
   * Moving keeps one entry per id and, on a well-formed cart, leaves the id in the cart with
   * a quantity of at least one, one more than before, and the cart still well-formed.
   */
  lemma MoveIntoKeepsCartSound(cart: seq<LineItem>, item: Item)
    requires UniqueIds(cart, LineId) && Cart.WellFormed(cart) && item.price >= 0
    ensures UniqueIds(MoveInto(cart, item), LineId)
    ensures Cart.WellFormed(MoveInto(cart, item))
    ensures Cart.QuantityOf(MoveInto(cart, item), item.id) == Cart.QuantityOf(cart, item.id) + 1
    ensures exists j :: 0 <= j < |MoveInto(cart, item)| && MoveInto(cart, item)[j].Id() == item.id
  {
    match FirstIndex(cart, LineId, item.id) {
      case Some(i) =>
        MoveIntoExisting(cart, item, i);
        IncrementKeepsCartSound(cart, i);
        assert MoveInto(cart, item)[i].Id() == item.id;
      case None =>
        MoveIntoNew(cart, item);
        AppendKeepsCartSound(cart, LineItem(item, 1));
        assert MoveInto(cart, item)[|cart|].Id() == item.id;
    }
  }

  lemma IncrementKeepsCartSound(cart: seq<LineItem>, i: nat)
    requires UniqueIds(cart, LineId) && Cart.WellFormed(cart) && i < |cart|
    ensures var c := cart[i := LineItem(cart[i].item, Incremented(cart[i].quantity))];
            && UniqueIds(c, LineId) && Cart.WellFormed(c)
            && Cart.QuantityOf(c, cart[i].Id()) == Cart.QuantityOf(cart, cart[i].Id()) + 1
  {
    var x := LineItem(cart[i].item, Incremented(cart[i].quantity));
    Cart.QuantityOfUpdate(cart, i, x, cart[i].Id());
    var c := cart[i := x];
    forall a, b | 0 <= a < b < |c| ensures LineId(c[a]) != LineId(c[b]) {
      assert LineId(c[a]) == LineId(cart[a]) && LineId(c[b]) == LineId(cart[b]);
    }
  }

  lemma AppendKeepsCartSound(cart: seq<LineItem>, x: LineItem)
    requires UniqueIds(cart, LineId) && Cart.WellFormed(cart) && x.item.price >= 0 && x.quantity >= 1
    requires forall j :: 0 <= j < |cart| ==> cart[j].Id() != x.Id()
    ensures var c := cart + [x];
            && UniqueIds(c, LineId) && Cart.WellFormed(c)
            && Cart.QuantityOf(c, x.Id()) == Cart.QuantityOf(cart, x.Id()) + x.quantity
  {
    Cart.QuantityOfAppend(cart, [x], x.Id());
    var c := cart + [x];
    forall a, b | 0 <= a < b < |c| ensures LineId(c[a]) != LineId(c[b]) {
      if b == |cart| {
        assert LineId(c[a]) == cart[a].Id();
      }
    }
  }

  datatype MoveOutcome =
    | NotInWishlist   // returned early: no wishlist entry has the id
    | CartUnreadable  // the unguarded JSON.parse of the stored cart threw
    | Moved

  /**
   * `moveToCart`: looks the id up in the wishlist, parses the stored cart without a fallback,
   * increments or appends, saves the cart, and only then removes the id from the wishlist.
   */
  method MoveToCart(store: LocalStorage, id: string) returns (outcome: MoveOutcome)
    modifies store
    ensures outcome == NotInWishlist <==> !HasId(Load(old(store.wishlist)), id)
    ensures outcome == CartUnreadable <==> HasId(Load(old(store.wishlist)), id) && old(store.cart).Corrupt?
    ensures outcome != Moved ==>
              store.cart == old(store.cart) && store.wishlist == old(store.wishlist)
              && store.writes == old(store.writes)
    ensures outcome == Moved ==>
              var list := Load(old(store.wishlist));
              var i := FirstIndex(list, ItemId, id);
              i.Some?
              && store.cart == Stored(MoveInto(Load(old(store.cart)), list[i.value]))
              && store.wishlist == Stored(Without(list, id))
              && store.writes == old(store.writes) + [SetItem(CartKey), SetItem(WishlistKey)]
  {
    var list := GetWishlist(store);
    var found := Find(list, ItemId, id);
    if found.None? {
      return NotInWishlist;
    }
    assert list[found.value].id == id;
    var itemToMove := list[found.value];
    if store.cart.Corrupt? {
      return CartUnreadable;
    }
    var cart := Load(store.cart);
    var inCart := Find(cart, LineId, itemToMove.id);
    if inCart.Some? {
      var existing := cart[inCart.value];
      cart := cart[inCart.value := LineItem(existing.item, Incremented(existing.quantity))];
    } else {
      cart := cart + [LineItem(itemToMove, 1)];
    }
    store.SetCart(cart);
    RemoveFromWishlist(store, id);
    outcome := Moved;
  }
}
