/**
 * The state owner: the `App` object holding the catalog and the cart, whose
 * three commands each replace one of the two with the pure updater's result,
 * and the facts that tie the cart back to the catalog.
 */
module Store {
  import opened Wrappers
  import Catalog
  import Cart

  /** A cart line carries the id, name and price of a catalog entry. */
  predicate Matches(l: Cart.CartLine, q: Catalog.Product) {
    l.id == q.id && l.name == q.name && l.price == q.price
  }

  /** Every cart line was copied from some catalog entry. */
  predicate LinesFromCatalog(cart: seq<Cart.CartLine>, products: seq<Catalog.Product>) {
    forall i :: 0 <= i < |cart| ==> exists j :: 0 <= j < |products| && Matches(cart[i], products[j])
  }

  /** Adding a catalog product to the cart keeps every line traceable to the catalog. */
  lemma AddKeepsLinesFromCatalog(cart: seq<Cart.CartLine>, products: seq<Catalog.Product>, k: nat)
    requires LinesFromCatalog(cart, products)
    requires k < |products|
    ensures LinesFromCatalog(Cart.AddToCart(cart, products[k]), products)
  {
    var p := products[k];
    var r := Cart.AddToCart(cart, p);
    Cart.AddShape(cart, p);
    forall i | 0 <= i < |r|
      ensures exists j :: 0 <= j < |products| && Matches(r[i], products[j])
    {
      if i < |cart| {
        var j :| 0 <= j < |products| && Matches(cart[i], products[j]);
        assert Matches(r[i], products[j]);
      } else {
        assert Matches(r[i], products[k]);
      }
    }
  }

  /** Removing lines keeps every remaining line traceable to the catalog. */
  lemma RemoveKeepsLinesFromCatalog(cart: seq<Cart.CartLine>, products: seq<Catalog.Product>, id: Catalog.Id)
    requires LinesFromCatalog(cart, products)
    ensures LinesFromCatalog(Cart.RemoveFromCart(cart, id), products)
  {
    var r := Cart.RemoveFromCart(cart, id);
    forall i | 0 <= i < |r|
      ensures exists j :: 0 <= j < |products| && Matches(r[i], products[j])
    {
      Cart.RemoveMembers(cart, id, r[i]);
      var m :| 0 <= m < |cart| && cart[m] == r[i];
      var j :| 0 <= j < |products| && Matches(cart[m], products[j]);
    }
  }

  /** Registering a product never breaks a line's link to the catalog, since nothing is removed. */
  lemma RegisterKeepsLinesFromCatalog(cart: seq<Cart.CartLine>, products: seq<Catalog.Product>,
                                      id: Catalog.Id, d: Catalog.Draft)
    requires LinesFromCatalog(cart, products)
    ensures LinesFromCatalog(cart, Catalog.Register(products, id, d))
  {
    var ps := Catalog.Register(products, id, d);
    forall i | 0 <= i < |cart|
      ensures exists j :: 0 <= j < |ps| && Matches(cart[i], ps[j])
    {
      var j :| 0 <= j < |products| && Matches(cart[i], products[j]);
      assert ps[j] == products[j];
    }
  }

  /**
   * When the cart was filled from a catalog with unique ids, adding a
   * catalog product raises the total by that product's price, whether it
   * merges into an existing line or starts a new one.
   */
  lemma AddCatalogProductTotal(cart: seq<Cart.CartLine>, products: seq<Catalog.Product>, k: nat)
    requires Catalog.UniqueIds(products) && Cart.UniqueIds(cart)
    requires LinesFromCatalog(cart, products)
    requires k < |products|
    ensures Cart.Total(Cart.AddToCart(cart, products[k])) == Cart.Total(cart) + products[k].price
  {
    var p := products[k];
    if Cart.HasLine(cart, p.id) {
      var i :| 0 <= i < |cart| && cart[i].id == p.id;
      var j :| 0 <= j < |products| && Matches(cart[i], products[j]);
      assert j == k;
      Cart.AddTotalExisting(cart, p, i);
    } else {
      Cart.AddTotalNew(cart, p);
    }
  }

  /** The storefront's state owner. */
  class App {
    var products: seq<Catalog.Product>
    var cart: seq<Cart.CartLine>

    /** Catalog ids are unique; the cart has one line per id and no empty line. */
    ghost predicate Valid()
      reads this
    {
      Catalog.UniqueIds(products) && Cart.Wellformed(cart)
    }

    /** The cart's lines all come from the current catalog. */
    ghost predicate CartFromCatalog()
      reads this
    {
      LinesFromCatalog(cart, products)
    }

    /** The store opens with the three seed products and an empty cart. */
    constructor ()
      ensures Valid() && CartFromCatalog()
      ensures products == Catalog.Seed() && cart == []
    {
      products := Catalog.Seed();
      cart := [];
    }

    /** The total the cart shows, computed afresh from the cart alone. */
    function CartTotal(): nat
      reads this
    {
      Cart.Total(cart)
    }

    /** The item count the cart header shows. */
    function ItemCount(): nat
      reads this
    {
      Cart.Count(cart)
    }

    /** Put one unit of `p` in the cart. */
    method AddToCart(p: Catalog.Product)
      requires Valid()
      modifies this
      ensures Valid()
      ensures cart == Cart.AddToCart(old(cart), p) && products == old(products)
      ensures old(CartFromCatalog()) && p in products ==> CartFromCatalog()
    {
      Cart.AddPreservesWellformed(cart, p);
      if CartFromCatalog() && p in products {
        var k :| 0 <= k < |products| && products[k] == p;
        AddKeepsLinesFromCatalog(cart, products, k);
      }
      cart := Cart.AddToCart(cart, p);
    }

    /** Drop every line with identifier `id`; nothing happens if there is none. */
    method RemoveFromCart(id: Catalog.Id)
      requires Valid()
      modifies this
      ensures Valid()
      ensures cart == Cart.RemoveFromCart(old(cart), id) && products == old(products)
      ensures old(CartFromCatalog()) ==> CartFromCatalog()
    {
      Cart.RemovePreservesWellformed(cart, id);
      if CartFromCatalog() {
        RemoveKeepsLinesFromCatalog(cart, products, id);
      }
      cart := Cart.RemoveFromCart(cart, id);
    }

    /** Register `d` under `now`, the identifier the clock gives, which must be new to the catalog. */
    method HandleAddProduct(d: Catalog.Draft, now: Catalog.Id)
      requires Valid()
      requires Catalog.IsFresh(products, now)
      modifies this
      ensures Valid()
      ensures products == Catalog.Register(old(products), now, d) && cart == old(cart)
      ensures old(CartFromCatalog()) ==> CartFromCatalog()
    {
      Catalog.RegisterUniqueIff(products, now, d);
      if CartFromCatalog() {
        RegisterKeepsLinesFromCatalog(cart, products, now, d);
      }
      products := Catalog.Register(products, now, d);
    }

    /**
     * Submit the add-product form with the given fields. An accepted
     * submission registers the product under `now`; a rejected one changes
     * nothing and does not use `now`.
     */
    method Submit(name: string, price: Option<int>, now: Catalog.Id) returns (accepted: bool)
      requires Valid()
      requires Catalog.AcceptSubmission(name, price).Some? ==> Catalog.IsFresh(products, now)
      modifies this
      ensures Valid()
      ensures accepted <==> name != [] && price.Some? && price.value > 0
      ensures accepted ==> products == Catalog.Register(old(products), now, Catalog.AcceptSubmission(name, price).value)
      ensures !accepted ==> products == old(products)
      ensures cart == old(cart)
      ensures old(CartFromCatalog()) ==> CartFromCatalog()
    {
      var draft := Catalog.AcceptSubmission(name, price);
      accepted := draft.Some?;
      if accepted {
        HandleAddProduct(draft.value, now);
      }
    }
  }

  /** A short shopping session, showing what the contracts above let a caller conclude. */
  method ShopperSession()
  {
    var app := new App();
    var bag := app.products[0];
    app.AddToCart(bag);
    app.AddToCart(bag);
    Cart.AddRepeatedlyFromEmpty(bag, 2);
    assert app.cart == [Cart.CartLine(1, "SkyBag", 999, 2)];
    assert app.ItemCount() == 1 && app.CartTotal() == 2 * 999;
    Cart.RemovePresent(app.cart, bag.id, 0);
    app.RemoveFromCart(bag.id);
    assert app.cart == [];
    var ok := app.Submit("", Some(5), 1000);
    assert !ok && app.products == Catalog.Seed();
    ok := app.Submit("Mug", Some(10), 1000);
    assert ok && app.products[3] == Catalog.Product(1000, "Mug", 10);
  }
}
