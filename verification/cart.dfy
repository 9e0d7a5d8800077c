/** The cart page's store operations: read, write, add with merge by id, and the displayed total. */
module Cart {
  import opened Wrappers
  import opened Storage

  /** `getCart`: the stored list; a missing key or an unparsable value reads as the empty cart. */
  method GetCart(store: LocalStorage) returns (cart: seq<LineItem>)
    ensures store.cart.Stored? ==> cart == store.cart.items
    ensures !store.cart.Stored? ==> cart == []
  {
    match store.cart {
      case Stored(items) => cart := items;
      case _ => cart := [];
    }
  }

  /** `saveCart`: replaces the whole stored cart. */
  method SaveCart(store: LocalStorage, cart: seq<LineItem>)
    modifies store
    ensures store.cart == Stored(cart) && store.wishlist == old(store.wishlist)
    ensures store.writes == old(store.writes) + [SetItem(CartKey)]
  {
    store.SetCart(cart);
  }

  /** The first entry with the same id gains the added quantity; without one, the item is appended. */
  function Add(cart: seq<LineItem>, item: LineItem): seq<LineItem> {
    match FirstIndex(cart, LineId, item.Id())
    case Some(i) => cart[i := LineItem(cart[i].item, cart[i].quantity + item.quantity)]
    case None => cart + [item]
  }

  /** `addToCart`: load, merge or append, save. */
  method AddToCart(store: LocalStorage, item: LineItem)
    modifies store
    ensures store.cart == Stored(Add(Load(old(store.cart)), item))
    ensures store.wishlist == old(store.wishlist)
    ensures store.writes == old(store.writes) + [SetItem(CartKey)]
  {
    var cart := GetCart(store);
    ghost var loaded := cart;
    assert loaded == Load(old(store.cart));
    var found := Find(cart, LineId, item.Id());
    if found.Some? {
      var existing := cart[found.value];
      cart := cart[found.value := LineItem(existing.item, existing.quantity + item.quantity)];
    } else {
      cart := cart + [item];
    }
    assert cart == Add(loaded, item);
    SaveCart(store, cart);
  }

  /** With an entry for the id: same length, that entry's quantity grows, every other entry stays put. */
  lemma AddMergesIntoExisting(cart: seq<LineItem>, item: LineItem, i: nat)
    requires i < |cart| && cart[i].Id() == item.Id()
    requires forall j :: 0 <= j < i ==> cart[j].Id() != item.Id()
    ensures |Add(cart, item)| == |cart|
    ensures Add(cart, item)[i] == LineItem(cart[i].item, cart[i].quantity + item.quantity)
    ensures forall j :: 0 <= j < |cart| && j != i ==> Add(cart, item)[j] == cart[j]
  {
  }

  /** Without an entry for the id: the item is appended at the end, after every old entry in order. */
  lemma AddAppendsNew(cart: seq<LineItem>, item: LineItem)
    requires forall j :: 0 <= j < |cart| ==> cart[j].Id() != item.Id()
    ensures Add(cart, item) == cart + [item]
  {
  }

  lemma AddKeepsUniqueIds(cart: seq<LineItem>, item: LineItem)
    requires UniqueIds(cart, LineId)
    ensures UniqueIds(Add(cart, item), LineId)
  {
  }

  /** The quantity recorded under `id`, summed over all entries, as a left-to-right reduce. */
  function QuantityOf(cart: seq<LineItem>, id: string): int {
    if cart == [] then 0
    else QuantityOf(cart[..|cart| - 1], id) + (if cart[|cart| - 1].Id() == id then cart[|cart| - 1].quantity else 0)
  }

  lemma {:induction false} QuantityOfAppend(a: seq<LineItem>, b: seq<LineItem>, id: string)
    ensures QuantityOf(a + b, id) == QuantityOf(a, id) + QuantityOf(b, id)
  {
    if b != [] {
      assert (a + b)[..|a + b| - 1] == a + b[..|b| - 1];
      QuantityOfAppend(a, b[..|b| - 1], id);
    } else {
      assert a + b == a;
    }
  }

  lemma QuantityOfUpdate(cart: seq<LineItem>, i: nat, x: LineItem, id: string)
    requires i < |cart|
    ensures QuantityOf(cart[i := x], id) == QuantityOf(cart, id)
              - (if cart[i].Id() == id then cart[i].quantity else 0)
              + (if x.Id() == id then x.quantity else 0)
  {
    assert cart == cart[..i] + [cart[i]] + cart[i + 1..];
    assert cart[i := x] == cart[..i] + [x] + cart[i + 1..];
    QuantityOfAppend(cart[..i] + [cart[i]], cart[i + 1..], id);
    QuantityOfAppend(cart[..i], [cart[i]], id);
    QuantityOfAppend(cart[..i] + [x], cart[i + 1..], id);
    QuantityOfAppend(cart[..i], [x], id);
  }

  /** After an add, the quantity under the added id grows by exactly the added quantity; every other id keeps its quantity. */
  lemma AddQuantity(cart: seq<LineItem>, item: LineItem, id: string)
    ensures QuantityOf(Add(cart, item), id)
              == QuantityOf(cart, id) + (if id == item.Id() then item.quantity else 0)
  {
    match FirstIndex(cart, LineId, item.Id()) {
      case Some(i) =>
        var x := LineItem(cart[i].item, cart[i].quantity + item.quantity);
        assert Add(cart, item) == cart[i := x];
        QuantityOfUpdate(cart, i, x, id);
      case None =>
        assert Add(cart, item) == cart + [item];
        QuantityOfAppend(cart, [item], id);
    }
  }

  /** A sequence of adds, oldest first. */
  function AddAll(cart: seq<LineItem>, items: seq<LineItem>): seq<LineItem>
    decreases |items|
  {
    if items == [] then cart else AddAll(Add(cart, items[0]), items[1..])
  }

  /** Any run of adds, with repeated ids or not, keeps at most one entry per id. */
  lemma {:induction false} AddAllKeepsUniqueIds(cart: seq<LineItem>, items: seq<LineItem>)
    requires UniqueIds(cart, LineId)
    ensures UniqueIds(AddAll(cart, items), LineId)
    decreases |items|
  {
    if items != [] {
      AddKeepsUniqueIds(cart, items[0]);
      AddAllKeepsUniqueIds(Add(cart, items[0]), items[1..]);
    }
  }

  lemma QuantityOfCons(x: LineItem, rest: seq<LineItem>, id: string)
    ensures QuantityOf([x] + rest, id) == (if x.Id() == id then x.quantity else 0) + QuantityOf(rest, id)
  {
    QuantityOfAppend([x], rest, id);
    assert [x][..0] == [];
  }

  /** After any run of adds, the quantity under each id is what was there plus everything added under it. */
  lemma {:induction false} AddAllQuantity(cart: seq<LineItem>, items: seq<LineItem>, id: string)
    ensures QuantityOf(AddAll(cart, items), id) == QuantityOf(cart, id) + QuantityOf(items, id)
    decreases |items|
  {
    if items != [] {
      AddQuantity(cart, items[0], id);
      AddAllQuantity(Add(cart, items[0]), items[1..], id);
      assert items == [items[0]] + items[1..];
      QuantityOfCons(items[0], items[1..], id);
    }
  }

  /** `cart.reduce((s, i) => s + i.price * i.quantity, 0)`. */
  function Total(cart: seq<LineItem>): int {
    if cart == [] then 0
    else Total(cart[..|cart| - 1]) + cart[|cart| - 1].item.price * cart[|cart| - 1].quantity
  }

  lemma {:induction false} TotalAppend(a: seq<LineItem>, b: seq<LineItem>)
    ensures Total(a + b) == Total(a) + Total(b)
  {
    if b != [] {
      assert (a + b)[..|a + b| - 1] == a + b[..|b| - 1];
      TotalAppend(a, b[..|b| - 1]);
    } else {
      assert a + b == a;
    }
  }

  lemma TotalUpdate(cart: seq<LineItem>, i: nat, x: LineItem)
    requires i < |cart|
    ensures Total(cart[i := x]) == Total(cart) - cart[i].item.price * cart[i].quantity + x.item.price * x.quantity
  {
    assert cart == cart[..i] + [cart[i]] + cart[i + 1..];
    assert cart[i := x] == cart[..i] + [x] + cart[i + 1..];
    TotalAppend(cart[..i] + [cart[i]], cart[i + 1..]);
    TotalAppend(cart[..i], [cart[i]]);
    TotalAppend(cart[..i] + [x], cart[i + 1..]);
    TotalAppend(cart[..i], [x]);
  }

  /**
   * An add raises the total by the added quantity times the price of the entry it lands in:
   * a merge keeps the stored entry's price, an append brings the item's own.
   */
  lemma AddTotal(cart: seq<LineItem>, item: LineItem)
    ensures FirstIndex(cart, LineId, item.Id()).Some? ==>
              Total(Add(cart, item)) == Total(cart)
                + cart[FirstIndex(cart, LineId, item.Id()).value].item.price * item.quantity
    ensures FirstIndex(cart, LineId, item.Id()).None? ==>
              Total(Add(cart, item)) == Total(cart) + item.item.price * item.quantity
  {
    match FirstIndex(cart, LineId, item.Id()) {
      case Some(i) =>
        assert Total(Add(cart, item)) == Total(cart) + cart[i].item.price * item.quantity by {
          assert Add(cart, item) == cart[i := LineItem(cart[i].item, cart[i].quantity + item.quantity)];
          TotalMerge(cart, i, item.quantity);
        }
      case None =>
        assert Total(Add(cart, item)) == Total(cart) + item.item.price * item.quantity by {
          assert Add(cart, item) == cart + [item];
          TotalAppend(cart, [item]);
          assert [item][..0] == [];
        }
    }
  }

  lemma TotalMerge(cart: seq<LineItem>, i: nat, added: int)
    requires i < |cart|
    ensures Total(cart[i := LineItem(cart[i].item, cart[i].quantity + added)])
            == Total(cart) + cart[i].item.price * added
  {
    var p, q := cart[i].item.price, cart[i].quantity;
    TotalUpdate(cart, i, LineItem(cart[i].item, q + added));
    assert p * (q + added) == p * q + p * added;
  }

  /** Entries as the data model allows them: no negative price, at least one unit. */
  predicate WellFormed(cart: seq<LineItem>) {
    forall i :: 0 <= i < |cart| ==> cart[i].item.price >= 0 && cart[i].quantity >= 1
  }

  lemma {:induction false} TotalNonNegative(cart: seq<LineItem>)
    requires WellFormed(cart)
    ensures Total(cart) >= 0
  {
    if cart != [] {
      TotalNonNegative(cart[..|cart| - 1]);
    }
  }

  /** What `renderCart` shows, leaving out the markup: the empty message, or the line entries and their total. */
  datatype CartView = EmptyMessage | Listing(lines: seq<LineItem>, total: int)

  /**
   * `renderCart`: the empty message exactly for an empty cart; otherwise every entry, and a
   * total that is the price × quantity sum, never negative for well-formed entries.
   */
  function RenderCart(cart: seq<LineItem>): (v: CartView)
    ensures v.EmptyMessage? <==> cart == []
    ensures v.Listing? ==> v.lines == cart && v.total == Total(cart)
    ensures v.Listing? && WellFormed(cart) ==> v.total >= 0
  {
    if |cart| == 0 then EmptyMessage
    else
      assert WellFormed(cart) ==> Total(cart) >= 0 by {
        if WellFormed(cart) {
          TotalNonNegative(cart);
        }
      }
      Listing(cart, Total(cart))
  }
}
