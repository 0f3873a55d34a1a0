/**
 * The storefront script: the application object that owns the loaded
 * catalogue, the cart and the cart-count badge, and the pure helpers it uses
 * to pick a product icon, filter the grid and label the product cards.
 */
module Client {
  import opened Wrappers
  import opened Sequences
  import opened Text
  import opened Catalog
  import opened Cart

  // ---------------------------------------------------------------- product icon

  /** The Font Awesome icons a product card can show. */
  datatype Icon = FaCircle | FaRing | FaCircleNotch | FaGem

  /** `getProductIcon`'s table, in the order `Object.entries` visits it. */
  const IconTable: seq<(string, Icon)> :=
    [("pendant", FaCircle), ("ring", FaRing), ("bracelet", FaCircleNotch), ("necklace", FaCircle), ("earrings", FaCircle)]

  /** The first entry of a table whose key occurs in the lower-cased name. */
  function IconIndex(table: seq<(string, Icon)>, name: string): Option<nat> {
    FirstIndex(table, (entry: (string, Icon)) => Contains(Lower(name), entry.0))
  }

  /** The icon of the first matching entry, or the gem when no key occurs in the name. */
  function IconFrom(table: seq<(string, Icon)>, name: string): (r: Icon)
    ensures (forall k :: 0 <= k < |table| ==> !Contains(Lower(name), table[k].0)) ==> r == FaGem
    ensures forall k :: 0 <= k < |table| && Contains(Lower(name), table[k].0) &&
                        (forall j :: 0 <= j < k ==> !Contains(Lower(name), table[j].0)) ==>
                        r == table[k].1
  {
    match IconIndex(table, name)
    case Some(k) => table[k].1
    case None => FaGem
  }

  /** The second entry is chosen when its key occurs in the name and the first entry's key does not. */
  lemma SecondEntryChosen(table: seq<(string, Icon)>, name: string)
    requires |table| >= 2 && !Contains(Lower(name), table[0].0) && Contains(Lower(name), table[1].0)
    ensures IconIndex(table, name) == Some(1)
    ensures IconFrom(table, name) == table[1].1
  {
  }

  /** `getProductIcon(name)` as written. */
  function ProductIcon(name: string): (r: Icon)
    ensures r == FaGem <==> forall k :: 0 <= k < |IconTable| ==> !Contains(Lower(name), IconTable[k].0)
    ensures r != FaGem ==> exists k :: 0 <= k < |IconTable| && Contains(Lower(name), IconTable[k].0) && r == IconTable[k].1
    ensures forall k :: 0 <= k < |IconTable| && Contains(Lower(name), IconTable[k].0) &&
                        (forall j :: 0 <= j < k ==> !Contains(Lower(name), IconTable[j].0)) ==>
                        r == IconTable[k].1
  {
    IconFrom(IconTable, name)
  }

  /** Any text containing "earrings" contains "ring". */
  lemma EarringsContainRing(t: string)
    requires Contains(t, "earrings")
    ensures Contains(t, "ring")
  {
    ContainsAt("earrings", "ring", 3);
    ContainsTransitive(t, "earrings", "ring");
  }

  /** "ring" is checked before "earrings" and occurs in it, so the "earrings" entry is never the one chosen. */
  lemma EarringsEntryNeverChosen(name: string)
    ensures IconIndex(IconTable, name) != Some(4)
  {
    if IconIndex(IconTable, name) == Some(4) {
      EarringsContainRing(Lower(name));
      assert false;
    }
  }

  /** Every earrings name without "pendant" gets the ring icon, not the entry listed for earrings. */
  lemma EarringsShowRingIcon(name: string)
    requires Contains(Lower(name), "earrings") && !Contains(Lower(name), "pendant")
    ensures ProductIcon(name) == FaRing
  {
    EarringsContainRing(Lower(name));
    SecondEntryChosen(IconTable, name);
  }

  /** The catalogue's "Celestial Earrings" is drawn with the ring icon. */
  lemma CelestialEarringsShowRingIcon()
    ensures ProductIcon("Celestial Earrings") == FaRing
    ensures IconTable[4] == ("earrings", FaCircle)
  {
    var t := Lower("Celestial Earrings");
    assert t == "celestial earrings";
    ContainsAt(t, "earrings", 10);
    AbsentCharNotContained(t, "pendant", 0);
    EarringsShowRingIcon("Celestial Earrings");
  }

  /** The table with "earrings" checked before "ring", so that every entry can be chosen. */
  const IntendedIconTable: seq<(string, Icon)> :=
    [("pendant", FaCircle), ("earrings", FaCircle), ("ring", FaRing), ("bracelet", FaCircleNotch), ("necklace", FaCircle)]

  function IntendedProductIcon(name: string): (r: Icon)
    ensures r == FaGem <==> forall k :: 0 <= k < |IntendedIconTable| ==> !Contains(Lower(name), IntendedIconTable[k].0)
    ensures forall k :: 0 <= k < |IntendedIconTable| && Contains(Lower(name), IntendedIconTable[k].0) &&
                        (forall j :: 0 <= j < k ==> !Contains(Lower(name), IntendedIconTable[j].0)) ==>
                        r == IntendedIconTable[k].1
  {
    IconFrom(IntendedIconTable, name)
  }

  /** With the corrected order, an earrings name (without "pendant") selects the earrings entry and its icon. */
  lemma IntendedEarringsEntryChosen(name: string)
    requires Contains(Lower(name), "earrings") && !Contains(Lower(name), "pendant")
    ensures IconIndex(IntendedIconTable, name) == Some(1)
    ensures IntendedProductIcon(name) == FaCircle
  {
    SecondEntryChosen(IntendedIconTable, name);
  }

  /** With the corrected order, a ring name that is not an earrings or pendant name keeps the ring icon. */
  lemma IntendedRingEntryChosen(name: string)
    requires Contains(Lower(name), "ring")
    requires !Contains(Lower(name), "pendant") && !Contains(Lower(name), "earrings")
    ensures IntendedProductIcon(name) == FaRing
  {
    assert IntendedIconTable[0].0 == "pendant" && IntendedIconTable[1].0 == "earrings";
    assert IntendedIconTable[2] == ("ring", FaRing);
    FirstIndexIs(IntendedIconTable, (entry: (string, Icon)) => Contains(Lower(name), entry.0), 2);
  }

  // ---------------------------------------------------------------- filter

  /**
   * `applyFilter(filter)`: "all" shows the whole catalogue; any other token
   * loses its last character and selects the products whose lower-cased name
   * contains what is left.
   */
  function ApplyFilter(products: seq<Product>, filter: string): (r: seq<Product>)
    ensures filter == "all" ==> r == products
    ensures filter != "all" ==> forall p :: p in r <==> p in products && Contains(Lower(p.name), DropLast(filter))
    ensures filter != "all" ==>
      forall p :: multiset(r)[p] == if Contains(Lower(p.name), DropLast(filter)) then multiset(products)[p] else 0
    ensures IsSubsequence(r, products)
  {
    if filter == "all" then
      SubsequenceOfItself(products);
      products
    else Filter(products, (p: Product) => Contains(Lower(p.name), DropLast(filter)))
  }

  /** The token is not lower-cased: one with a capital letter before its last character selects nothing. */
  lemma ApplyFilterCapitalSelectsNothing(products: seq<Product>, filter: string, j: nat)
    requires filter != "all" && j < |DropLast(filter)| && IsUpper(DropLast(filter)[j])
    ensures ApplyFilter(products, filter) == []
  {
    var r := ApplyFilter(products, filter);
    if r != [] {
      assert r[0] in r;
      LowerContainsNoUpper(r[0].name, DropLast(filter), j);
    }
  }

  /** A product whose lower-cased name contains the token minus its last character is shown under that filter. */
  lemma ApplyFilterShows(products: seq<Product>, filter: string, k: nat)
    requires filter != "all" && k < |products|
    requires Contains(Lower(products[k].name), DropLast(filter))
    ensures products[k] in ApplyFilter(products, filter)
  {
    assert products[k] in products;
  }

  /** "celestial earrings" contains "ring", inside "earrings". */
  lemma CelestialEarringsNameContainsRing()
    ensures Contains(Lower("Celestial Earrings"), "ring")
  {
    var t := Lower("Celestial Earrings");
    assert t == "celestial earrings";
    ContainsAt(t, "ring", 13);
  }

  /** The name heuristic files the catalogue's "Celestial Earrings" under the rings filter. */
  lemma RingsFilterIncludesEarrings()
    ensures Fixture[2] in ApplyFilter(Fixture, "rings")
    ensures Fixture[2].category == "earrings"
  {
    CelestialEarringsNameContainsRing();
    assert DropLast("rings") == "ring";
    ApplyFilterShows(Fixture, "rings", 2);
  }

  // ---------------------------------------------------------------- cart

  /** The label of a product card's button: "Add to Cart", or the disabled "In Cart". */
  datatype CardButton = AddToCartButton | InCartButton

  /** The single application instance. */
  class AuroraJewelry {
    /** The catalogue as fetched from `/api/products`; empty until the fetch completes. */
    var products: seq<Product>
    var cart: seq<Entry>
    /** The number written into the `.cart-count` badge; the badge is displayed iff it is positive. */
    var badge: int
    /** What local storage holds under "auroraCart": None while the key is absent or holds a falsy JSON value. */
    ghost var stored: Option<seq<Entry>>

    /** The badge shows the current sum of quantities. */
    ghost predicate BadgeCurrent()
      reads this
    {
      badge == Count(cart)
    }

    /**
     * Start-up with what local storage held under "auroraCart" (already
     * parsed): an absent key gives the empty cart. The badge is then set.
     */
    constructor (saved: Option<seq<Entry>>)
      ensures products == [] && cart == saved.GetOr([]) && stored == saved
      ensures BadgeCurrent()
    {
      products := [];
      cart := saved.GetOr([]);
      stored := saved;
      new;
      UpdateCartCount();
    }

    /** The successful end of `loadProducts`: the fetched catalogue replaces the empty one. */
    method ProductsLoaded(fetched: seq<Product>)
      modifies this`products
      ensures products == fetched
    {
      products := fetched;
    }

    /** `updateCartCount`: write the sum of quantities into the badge. */
    method UpdateCartCount()
      modifies this`badge
      ensures BadgeCurrent()
    {
      badge := Count(cart);
    }

    /** `saveCart`: write the cart to local storage. */
    method SaveCart()
      modifies this`stored
      ensures stored == Some(cart)
    {
      stored := Some(cart);
    }

    /** Whether the badge is displayed; for a current badge over a valid cart, exactly when the cart has an entry. */
    function BadgeShown(): (r: bool)
      reads this
      ensures BadgeCurrent() && Valid(cart) ==> (r <==> cart != [])
    {
      CountPositiveIffNonEmpty(cart);
      badge > 0
    }

    /** The button a product card shows, from `createProductCard`'s look-up of the product in the cart. */
    function CardButtonFor(p: Product): (r: CardButton)
      reads this
      ensures r == InCartButton <==> exists i :: 0 <= i < |cart| && cart[i].item.id == p.id
    {
      if InCart(cart, p.id) then InCartButton else AddToCartButton
    }

    /** `addToCart(id)`. */
    method AddToCart(id: int)
      modifies this
      ensures products == old(products)
      ensures cart == Added(old(cart), products, id)
      ensures FindProduct(products, id).None? ==> badge == old(badge) && stored == old(stored)
      ensures FindProduct(products, id).Some? ==> stored == Some(cart) && BadgeCurrent() && InCart(cart, id)
      ensures Valid(old(cart)) ==> Valid(cart)
    {
      if Valid(cart) {
        AddedKeepsValid(cart, products, id);
      }
      AddedFindsProduct(cart, products, id);
      var product := FindProduct(products, id);
      if product.None? {
        return;
      }
      var existing := Locate(cart, id);
      if existing.Some? {
        cart := Bumped(cart, existing.value, 1);
      } else {
        cart := cart + [Entry(product.value, 1)];
      }
      SaveCart();
      UpdateCartCount();
    }

    /** `removeFromCart(id)`. */
    method RemoveFromCart(id: int)
      modifies this
      ensures products == old(products)
      ensures cart == Removed(old(cart), id)
      ensures stored == Some(cart) && BadgeCurrent() && !InCart(cart, id)
      ensures Valid(old(cart)) ==> Valid(cart)
    {
      RemovedSpec(cart, id);
      if Valid(cart) {
        RemovedKeepsValid(cart, id);
      }
      cart := Removed(cart, id);
      SaveCart();
      UpdateCartCount();
    }

    /**
     * `updateQuantity(id, change)` as written: when the entry survives, the
     * cart is saved but the badge is not refreshed.
     */
    method UpdateQuantity(id: int, change: int)
      modifies this
      ensures products == old(products)
      ensures cart == QuantityUpdated(old(cart), id, change)
      ensures Valid(old(cart)) ==> Valid(cart)
      ensures match Locate(old(cart), id)
        case None => badge == old(badge) && stored == old(stored)
        case Some(k) =>
          stored == Some(cart) &&
          if old(cart)[k].quantity + change <= 0 then BadgeCurrent() else badge == old(badge)
    {
      if Valid(cart) {
        QuantityUpdatedKeepsValid(cart, id, change);
      }
      var found := Locate(cart, id);
      if found.None? {
        return;
      }
      var k := found.value;
      ghost var after := QuantityUpdated(cart, id, change);
      cart := Bumped(cart, k, change);
      if cart[k].quantity <= 0 {
        assert after == Removed(cart, id);
        RemoveFromCart(id);
      } else {
        assert after == cart;
        SaveCart();
      }
    }

    /** `updateQuantity` with the badge refreshed on both branches, as the badge's contract requires. */
    method UpdateQuantityAndCount(id: int, change: int)
      modifies this
      ensures products == old(products)
      ensures cart == QuantityUpdated(old(cart), id, change)
      ensures Valid(old(cart)) ==> Valid(cart)
      ensures Locate(old(cart), id).None? ==> badge == old(badge) && stored == old(stored)
      ensures Locate(old(cart), id).Some? ==> stored == Some(cart) && BadgeCurrent()
      ensures old(BadgeCurrent()) ==> BadgeCurrent()
    {
      if Valid(cart) {
        QuantityUpdatedKeepsValid(cart, id, change);
      }
      var found := Locate(cart, id);
      if found.None? {
        return;
      }
      var k := found.value;
      ghost var after := QuantityUpdated(cart, id, change);
      cart := Bumped(cart, k, change);
      if cart[k].quantity <= 0 {
        assert after == Removed(cart, id);
        RemoveFromCart(id);
      } else {
        assert after == cart;
        SaveCart();
        UpdateCartCount();
      }
    }
  }

  /**
   * The stale badge: a stored cart holding one product once, then one click
   * on its "+" button. The cart then holds 2, the badge still says 1.
   */
  method StaleBadgeWitness() returns (shown: int, actual: int)
    ensures shown == 1 && actual == 2
  {
    var p := Fixture[0];
    var app := new AuroraJewelry(Some([Entry(p, 1)]));
    assert app.cart == [Entry(p, 1)] && Locate(app.cart, p.id) == Some(0);
    app.UpdateQuantity(p.id, 1);
    assert app.cart == [Entry(p, 2)];
    assert app.cart[1..] == [];
    assert SumOver(app.cart[1..], (e: Entry) => e.quantity) == 0;
    shown, actual := app.badge, Count(app.cart);
  }

  /** With the refreshed badge, the same clicks leave badge and cart in agreement. */
  method RefreshedBadgeWitness() returns (shown: int, actual: int)
    ensures shown == 2 && actual == 2
  {
    var p := Fixture[0];
    var app := new AuroraJewelry(Some([Entry(p, 1)]));
    assert app.cart == [Entry(p, 1)] && Locate(app.cart, p.id) == Some(0);
    app.UpdateQuantityAndCount(p.id, 1);
    assert app.cart == [Entry(p, 2)];
    assert app.cart[1..] == [];
    assert SumOver(app.cart[1..], (e: Entry) => e.quantity) == 0;
    shown, actual := app.badge, Count(app.cart);
  }
}
