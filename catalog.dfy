/**
 * The product records the server holds in its immutable `products` list and
 * the client receives from `/api/products`, with the lookups both sides make.
 */
module Catalog {
  import opened Wrappers
  import opened Sequences

  /** A catalogue record; `price` is in whole cents. */
  datatype Product = Product(
    id: int,
    name: string,
    price: nat,
    image: string,
    description: string,
    category: string,
    materials: string,
    inStock: bool)

  /** No two records share an id, as holds of the server's catalogue. */
  ghost predicate UniqueIds(products: seq<Product>) {
    forall i, j :: 0 <= i < j < |products| ==> products[i].id != products[j].id
  }

  /** `products.find((p) => p.id === id)`: the first record with that id. */
  function FindProduct(products: seq<Product>, id: int): (r: Option<Product>)
    ensures r.Some? ==> r.value.id == id
    ensures r.Some? ==> exists k :: 0 <= k < |products| && products[k] == r.value &&
                                    forall j :: 0 <= j < k ==> products[j].id != id
    ensures r.None? <==> forall p :: p in products ==> p.id != id
  {
    match FirstIndex(products, (p: Product) => p.id == id)
    case None => None
    case Some(k) => Some(products[k])
  }

  /** In a catalogue with unique ids, every record is found by its own id. */
  lemma FindProductUnique(products: seq<Product>, k: nat)
    requires UniqueIds(products) && k < |products|
    ensures FindProduct(products, products[k].id) == Some(products[k])
  {
    var r := FindProduct(products, products[k].id);
    var k' :| 0 <= k' < |products| && products[k'] == r.value &&
              forall j :: 0 <= j < k' ==> products[j].id != products[k].id;
  }

  /** `products.slice(0, 3)`: the featured window. */
  function Featured(products: seq<Product>): (r: seq<Product>)
    ensures r <= products
    ensures |r| == if |products| < 3 then |products| else 3
  {
    products[..if |products| < 3 then |products| else 3]
  }

  /** A small catalogue used by the example lemmas. */
  const Fixture: seq<Product> := [
    Product(1, "Aurora Pendant", 7900, "/images/pendant.jpg", "Silver pendant", "necklaces", "Sterling silver", true),
    Product(2, "Luna Ring", 12900, "/images/ring.jpg", "Moonstone ring", "rings", "Gold-plated silver", true),
    Product(4, "Celestial Earrings", 6500, "/images/earrings.jpg", "Drop earrings", "earrings", "Sterling silver", true),
    Product(5, "Infinity Necklace", 11000, "/images/necklace.jpg", "Rose gold necklace", "necklaces", "Rose gold", true)
  ]
}
