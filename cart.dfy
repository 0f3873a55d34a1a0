/**
 * The client's shopping cart as a value: the operations `addToCart`,
 * `removeFromCart` and `updateQuantity` perform on it, the sums the page
 * derives from it (the cart-count badge and the order summary), and what
 * those operations preserve and change.
 */
module Cart {
  import opened Wrappers
  import opened Sequences
  import opened Catalog

  /** One cart line: a copy of the product record taken when it was added, and its quantity. */
  datatype Entry = Entry(item: Product, quantity: int)

  /** What the operations keep: at most one entry per product id, and every quantity at least 1. */
  ghost predicate Valid(cart: seq<Entry>) {
    (forall i, j :: 0 <= i < j < |cart| ==> cart[i].item.id != cart[j].item.id) &&
    (forall i :: 0 <= i < |cart| ==> cart[i].quantity >= 1)
  }

  /** `cart.find((item) => item.id === id)`, as the index of the entry found. */
  function Locate(cart: seq<Entry>, id: int): (r: Option<nat>)
    ensures r.Some? ==> r.value < |cart| && cart[r.value].item.id == id &&
                        forall j :: 0 <= j < r.value ==> cart[j].item.id != id
    ensures r.None? <==> forall j :: 0 <= j < |cart| ==> cart[j].item.id != id
  {
    FirstIndex(cart, (e: Entry) => e.item.id == id)
  }

  /** Whether `cart.find` succeeds: the "In Cart" state of a product card. */
  function InCart(cart: seq<Entry>, id: int): (r: bool)
    ensures r <==> exists i :: 0 <= i < |cart| && cart[i].item.id == id
  {
    Locate(cart, id).Some?
  }

  /** The entry at k with its quantity changed by `change`, in place. */
  function Bumped(cart: seq<Entry>, k: nat, change: int): seq<Entry>
    requires k < |cart|
  {
    cart[k := cart[k].(quantity := cart[k].quantity + change)]
  }

  /** The cart after `addToCart(id)` with the loaded catalogue `products`. */
  function Added(cart: seq<Entry>, products: seq<Product>, id: int): seq<Entry> {
    match FindProduct(products, id)
    case None => cart
    case Some(p) =>
      match Locate(cart, id)
      case Some(k) => Bumped(cart, k, 1)
      case None => cart + [Entry(p, 1)]
  }

  /** The cart after `removeFromCart(id)`: every entry with that id is dropped. */
  function Removed(cart: seq<Entry>, id: int): seq<Entry> {
    Filter(cart, (e: Entry) => e.item.id != id)
  }

  /**
   * The cart after `updateQuantity(id, change)`: the first entry with that id
   * has its quantity changed, and if the result is not positive the id is
   * removed from the changed cart.
   */
  function QuantityUpdated(cart: seq<Entry>, id: int, change: int): seq<Entry> {
    match Locate(cart, id)
    case None => cart
    case Some(k) =>
      if cart[k].quantity + change <= 0 then Removed(Bumped(cart, k, change), id)
      else Bumped(cart, k, change)
  }

  // ---------------------------------------------------------------- sums

  /** `cart.reduce((total, item) => total + weight(item), 0)`. */
  function SumOver(cart: seq<Entry>, weight: Entry -> int): int {
    if cart == [] then 0 else weight(cart[0]) + SumOver(cart[1..], weight)
  }

  /** The number on the cart badge: the sum of the quantities. */
  function Count(cart: seq<Entry>): int {
    SumOver(cart, (e: Entry) => e.quantity)
  }

  /** The extended price of one line, in cents. */
  function LinePrice(e: Entry): int {
    e.item.price * e.quantity
  }

  /** The order subtotal: the sum of the extended prices, in cents. */
  function Subtotal(cart: seq<Entry>): int {
    SumOver(cart, LinePrice)
  }

  /** Shipping is free only strictly above 100.00 (10000 cents); otherwise it is 10.00. */
  const FreeShippingAbove: int := 10000
  const ShippingFee: int := 1000

  datatype Summary = Summary(subtotal: int, shipping: int, total: int)

  /** The three rows of the order summary for a given subtotal. */
  function SummaryOf(subtotal: int): (r: Summary)
    ensures r.subtotal == subtotal
    ensures r.shipping == 0 <==> subtotal > FreeShippingAbove
    ensures r.shipping == 0 || r.shipping == ShippingFee
    ensures r.total == subtotal + r.shipping
  {
    var shipping := if subtotal > FreeShippingAbove then 0 else ShippingFee;
    Summary(subtotal, shipping, subtotal + shipping)
  }

  /** What `renderCart` shows: nothing (the empty-cart panel) for an empty cart, else the summary. */
  function OrderSummary(cart: seq<Entry>): (r: Option<Summary>)
    ensures r.None? <==> cart == []
    ensures r.Some? ==> r.value.subtotal == Subtotal(cart)
    ensures r.Some? ==> r.value.shipping == (if Subtotal(cart) > FreeShippingAbove then 0 else ShippingFee)
    ensures r.Some? ==> r.value.total == Subtotal(cart) + r.value.shipping
  {
    if cart == [] then None else Some(SummaryOf(Subtotal(cart)))
  }

  /** The worked figures: 85.00 pays shipping, 120.00 does not, and exactly 100.00 still pays. */
  lemma SummaryExamples()
    ensures SummaryOf(8500) == Summary(8500, 1000, 9500)
    ensures SummaryOf(12000) == Summary(12000, 0, 12000)
    ensures SummaryOf(10000) == Summary(10000, 1000, 11000)
    ensures SummaryOf(10001).total < SummaryOf(10000).total
  {
  }

  // ---------------------------------------------------------------- sum lemmas

  lemma {:induction false} SumOverAppend(a: seq<Entry>, b: seq<Entry>, weight: Entry -> int)
    ensures SumOver(a + b, weight) == SumOver(a, weight) + SumOver(b, weight)
  {
    if a == [] {
      assert a + b == b;
    } else {
      assert (a + b)[1..] == a[1..] + b;
      SumOverAppend(a[1..], b, weight);
    }
  }

  /** Replacing one entry changes a sum by the difference of that entry's weights. */
  lemma {:induction false} SumOverReplace(cart: seq<Entry>, k: nat, e: Entry, weight: Entry -> int)
    requires k < |cart|
    ensures SumOver(cart[k := e], weight) == SumOver(cart, weight) - weight(cart[k]) + weight(e)
  {
    if k > 0 {
      assert cart[k := e][1..] == cart[1..][k - 1 := e];
      SumOverReplace(cart[1..], k - 1, e, weight);
    }
  }

  /** A valid cart's count is positive exactly when the cart has an entry: the badge shows iff the cart is not empty. */
  lemma {:induction false} CountPositiveIffNonEmpty(cart: seq<Entry>)
    ensures Valid(cart) ==> (Count(cart) > 0 <==> cart != [])
    ensures Valid(cart) ==> Count(cart) >= |cart|
  {
    if cart != [] && Valid(cart) {
      assert Valid(cart[1..]);
      CountPositiveIffNonEmpty(cart[1..]);
    }
  }

  /** A valid cart never has a negative subtotal. */
  lemma {:induction false} SubtotalNonNegative(cart: seq<Entry>)
    requires Valid(cart)
    ensures Subtotal(cart) >= 0
  {
    if cart != [] {
      assert Valid(cart[1..]);
      SubtotalNonNegative(cart[1..]);
    }
  }

  // ---------------------------------------------------------------- add

  /** In a valid cart the entry found for an id is the only entry with that id. */
  lemma LocateValid(cart: seq<Entry>, id: int, k: nat)
    requires Valid(cart) && k < |cart| && cart[k].item.id == id
    ensures Locate(cart, id) == Some(k)
  {
    assert Locate(cart, id).Some?;
  }

  /** Adding a product the catalogue lacks changes nothing. */
  lemma AddedUnknown(cart: seq<Entry>, products: seq<Product>, id: int)
    requires forall p :: p in products ==> p.id != id
    ensures Added(cart, products, id) == cart
  {
  }

  /** Adding a product already in a valid cart raises that entry's quantity by one and touches nothing else. */
  lemma AddedExisting(cart: seq<Entry>, products: seq<Product>, id: int, k: nat)
    requires Valid(cart) && k < |cart| && cart[k].item.id == id
    requires exists p :: p in products && p.id == id
    ensures var r := Added(cart, products, id);
      |r| == |cart| && r[k] == Entry(cart[k].item, cart[k].quantity + 1) &&
      forall j :: 0 <= j < |cart| && j != k ==> r[j] == cart[j]
  {
    LocateValid(cart, id, k);
  }

  /** Adding a catalogue product not yet in the cart appends one entry with quantity 1. */
  lemma AddedNew(cart: seq<Entry>, products: seq<Product>, id: int)
    requires !InCart(cart, id)
    requires FindProduct(products, id).Some?
    ensures Added(cart, products, id) == cart + [Entry(FindProduct(products, id).value, 1)]
  {
  }

  /** Adding keeps the cart valid. */
  lemma AddedKeepsValid(cart: seq<Entry>, products: seq<Product>, id: int)
    requires Valid(cart)
    ensures Valid(Added(cart, products, id))
  {
  }

  /** After adding a catalogue product, the cart holds it. */
  lemma AddedFindsProduct(cart: seq<Entry>, products: seq<Product>, id: int)
    ensures FindProduct(products, id).Some? ==> InCart(Added(cart, products, id), id)
  {
    if FindProduct(products, id).Some? {
      var r := Added(cart, products, id);
      match Locate(cart, id)
      case Some(k) =>
        assert r[k].item.id == id;
      case None =>
        assert r[|cart|].item.id == id;
    }
  }

  /** Adding the same catalogue product twice to a cart without it yields one entry of quantity 2. */
  lemma AddedTwice(cart: seq<Entry>, products: seq<Product>, id: int)
    requires !InCart(cart, id)
    requires FindProduct(products, id).Some?
    ensures Added(Added(cart, products, id), products, id) ==
            cart + [Entry(FindProduct(products, id).value, 2)]
  {
    var once := Added(cart, products, id);
    assert once == cart + [Entry(FindProduct(products, id).value, 1)];
    assert once[|cart|].item.id == id;
    assert forall j :: 0 <= j < |cart| ==> once[j] == cart[j];
    assert Locate(once, id) == Some(|cart|);
  }

  /**
   * Adding a catalogue product raises the badge by one. The subtotal rises by
   * the price of the copy the cart holds: the catalogue's price for a new
   * entry, the price recorded when it was first added for an existing one.
   */
  lemma AddedSums(cart: seq<Entry>, products: seq<Product>, id: int)
    ensures FindProduct(products, id).None? ==> Count(Added(cart, products, id)) == Count(cart)
    ensures FindProduct(products, id).None? ==> Subtotal(Added(cart, products, id)) == Subtotal(cart)
    ensures FindProduct(products, id).Some? ==> Count(Added(cart, products, id)) == Count(cart) + 1
    ensures FindProduct(products, id).Some? && Locate(cart, id).None? ==>
      Subtotal(Added(cart, products, id)) == Subtotal(cart) + FindProduct(products, id).value.price
    ensures FindProduct(products, id).Some? && Locate(cart, id).Some? ==>
      Subtotal(Added(cart, products, id)) == Subtotal(cart) + cart[Locate(cart, id).value].item.price
  {
    match FindProduct(products, id)
    case None =>
    case Some(p) =>
      match Locate(cart, id)
      case Some(k) =>
        var bumped := cart[k].(quantity := cart[k].quantity + 1);
        assert LinePrice(bumped) == LinePrice(cart[k]) + cart[k].item.price;
        SumOverReplace(cart, k, bumped, (e: Entry) => e.quantity);
        SumOverReplace(cart, k, bumped, LinePrice);
      case None =>
        SumOverAppend(cart, [Entry(p, 1)], (e: Entry) => e.quantity);
        SumOverAppend(cart, [Entry(p, 1)], LinePrice);
  }

  // ---------------------------------------------------------------- remove

  /** After removal no entry has the id, the others keep their order, and removing an absent id changes nothing. */
  lemma RemovedSpec(cart: seq<Entry>, id: int)
    ensures !InCart(Removed(cart, id), id)
    ensures forall e :: e in Removed(cart, id) <==> e in cart && e.item.id != id
    ensures forall e :: multiset(Removed(cart, id))[e] == if e.item.id != id then multiset(cart)[e] else 0
    ensures IsSubsequence(Removed(cart, id), cart)
    ensures !InCart(cart, id) ==> Removed(cart, id) == cart
  {
    var r := Removed(cart, id);
    forall i | 0 <= i < |r| ensures r[i].item.id != id {
      assert r[i] in r;
    }
    if !InCart(cart, id) {
      FilterKeepsAll(cart, (e: Entry) => e.item.id != id);
    }
  }

  /** An entry whose id the rest lacks can head a valid cart. */
  lemma ValidCons(x: Entry, rest: seq<Entry>)
    requires Valid(rest) && x.quantity >= 1
    requires forall j :: 0 <= j < |rest| ==> rest[j].item.id != x.item.id
    ensures Valid([x] + rest)
  {
    var c := [x] + rest;
    forall i, j | 0 <= i < j < |c| ensures c[i].item.id != c[j].item.id {
      assert c[j] == rest[j - 1];
      if i > 0 {
        assert c[i] == rest[i - 1];
      }
    }
  }

  /** Removal looks at the head entry, then removes from the rest. */
  lemma RemovedHead(cart: seq<Entry>, id: int)
    requires cart != []
    ensures cart[0].item.id != id ==> Removed(cart, id) == [cart[0]] + Removed(cart[1..], id)
    ensures cart[0].item.id == id ==> Removed(cart, id) == Removed(cart[1..], id)
  {
  }

  /** A valid cart stays valid when its tail is replaced by a valid selection from that tail. */
  lemma ValidConsSelection(x: Entry, tail: seq<Entry>, rest: seq<Entry>)
    requires Valid([x] + tail) && Valid(rest)
    requires forall e :: e in rest ==> e in tail
    ensures Valid([x] + rest)
  {
    var c := [x] + tail;
    assert c[0] == x;
    forall j | 0 <= j < |rest| ensures rest[j].item.id != x.item.id {
      assert rest[j] in rest;
      var m :| 0 <= m < |tail| && tail[m] == rest[j];
      assert c[m + 1] == tail[m];
    }
    ValidCons(x, rest);
  }

  /** Removal keeps the cart valid. */
  lemma {:induction false} RemovedKeepsValid(cart: seq<Entry>, id: int)
    requires Valid(cart)
    ensures Valid(Removed(cart, id))
  {
    if cart != [] {
      var tail := cart[1..];
      assert cart == [cart[0]] + tail;
      assert Valid(tail);
      RemovedKeepsValid(tail, id);
      RemovedHead(cart, id);
      if cart[0].item.id != id {
        ValidConsSelection(cart[0], tail, Removed(tail, id));
      }
    }
  }

  /** In a valid cart, removing the head entry's id leaves exactly the rest. */
  lemma RemovedValidHead(cart: seq<Entry>, id: int)
    requires Valid(cart) && cart != [] && cart[0].item.id == id
    ensures Removed(cart, id) == cart[1..]
  {
    var tail := cart[1..];
    assert forall i :: 0 <= i < |tail| ==> tail[i] == cart[i + 1];
    RemovedHead(cart, id);
    FilterKeepsAll(tail, (e: Entry) => e.item.id != id);
  }

  lemma SumOverCons(x: Entry, rest: seq<Entry>, weight: Entry -> int)
    ensures SumOver([x] + rest, weight) == weight(x) + SumOver(rest, weight)
  {
    assert ([x] + rest)[1..] == rest;
  }

  /** Removing the id of an entry of a valid cart lowers any sum by exactly that entry's weight. */
  lemma {:induction false} RemovedSum(cart: seq<Entry>, id: int, k: nat, weight: Entry -> int)
    requires Valid(cart) && k < |cart| && cart[k].item.id == id
    ensures SumOver(Removed(cart, id), weight) == SumOver(cart, weight) - weight(cart[k])
  {
    var tail := cart[1..];
    if k == 0 {
      RemovedValidHead(cart, id);
    } else {
      assert Valid(tail);
      RemovedSum(tail, id, k - 1, weight);
      RemovedHead(cart, id);
      SumOverCons(cart[0], Removed(tail, id), weight);
    }
  }

  /** The removal that `updateQuantity` performs after changing the entry equals removal from the unchanged cart. */
  lemma {:induction false} RemovedIgnoresBump(cart: seq<Entry>, id: int, k: nat, change: int)
    requires k < |cart| && cart[k].item.id == id
    ensures Removed(Bumped(cart, k, change), id) == Removed(cart, id)
  {
    if k > 0 {
      assert Bumped(cart, k, change)[1..] == Bumped(cart[1..], k - 1, change);
      RemovedIgnoresBump(cart[1..], id, k - 1, change);
    }
  }

  // ---------------------------------------------------------------- update quantity

  /** `updateQuantity` with an id the cart lacks changes nothing. */
  lemma QuantityUpdatedAbsent(cart: seq<Entry>, id: int, change: int)
    requires !InCart(cart, id)
    ensures QuantityUpdated(cart, id, change) == cart
  {
  }

  /** Bringing the quantity to zero or below removes the product, exactly as `removeFromCart` does. */
  lemma QuantityUpdatedRemoves(cart: seq<Entry>, id: int, change: int, k: nat)
    requires Valid(cart) && k < |cart| && cart[k].item.id == id
    requires cart[k].quantity + change <= 0
    ensures QuantityUpdated(cart, id, change) == Removed(cart, id)
  {
    LocateValid(cart, id, k);
    RemovedIgnoresBump(cart, id, k, change);
  }

  /** Otherwise only that entry changes, and its quantity changes by exactly `change`. */
  lemma QuantityUpdatedAdjusts(cart: seq<Entry>, id: int, change: int, k: nat)
    requires Valid(cart) && k < |cart| && cart[k].item.id == id
    requires cart[k].quantity + change > 0
    ensures var r := QuantityUpdated(cart, id, change);
      |r| == |cart| && r[k] == Entry(cart[k].item, cart[k].quantity + change) &&
      forall j :: 0 <= j < |cart| && j != k ==> r[j] == cart[j]
  {
    LocateValid(cart, id, k);
  }

  /** Updating a quantity keeps the cart valid: no entry is ever left with a quantity below 1. */
  lemma QuantityUpdatedKeepsValid(cart: seq<Entry>, id: int, change: int)
    requires Valid(cart)
    ensures Valid(QuantityUpdated(cart, id, change))
  {
    match Locate(cart, id)
    case None =>
    case Some(k) =>
      if cart[k].quantity + change <= 0 {
        QuantityUpdatedRemoves(cart, id, change, k);
        RemovedKeepsValid(cart, id);
      }
  }

  /** The badge count after an update: up by `change`, or down by the removed entry's old quantity. */
  lemma QuantityUpdatedCount(cart: seq<Entry>, id: int, change: int, k: nat)
    requires Valid(cart) && k < |cart| && cart[k].item.id == id
    ensures cart[k].quantity + change > 0 ==> Count(QuantityUpdated(cart, id, change)) == Count(cart) + change
    ensures cart[k].quantity + change <= 0 ==> Count(QuantityUpdated(cart, id, change)) == Count(cart) - cart[k].quantity
  {
    LocateValid(cart, id, k);
    if cart[k].quantity + change <= 0 {
      QuantityUpdatedRemoves(cart, id, change, k);
      RemovedSum(cart, id, k, (e: Entry) => e.quantity);
    } else {
      SumOverReplace(cart, k, cart[k].(quantity := cart[k].quantity + change), (e: Entry) => e.quantity);
    }
  }
}
