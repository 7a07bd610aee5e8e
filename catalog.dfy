/**
 * The storefront catalog: the list of purchasable products, the three
 * products it starts with, the add-product form's submit guard and the
 * append-only registration of a new product.
 */
module Catalog {
  import opened Wrappers

  /** Product identifiers are plain numbers (the seed uses 1, 2, 3; new ones come from a clock). */
  type Id = int

  /** A catalog entry `{ id, name, price }`. Prices are whole amounts in the store's own unit. */
  datatype Product = Product(id: Id, name: string, price: nat)

  /** What the add-product form hands to the store: `{ name, price }`, without an id. */
  datatype Draft = Draft(name: string, price: nat)

  /** No two catalog entries share an identifier. */
  predicate UniqueIds(products: seq<Product>) {
    forall i, j :: 0 <= i < j < |products| ==> products[i].id != products[j].id
  }

  /** `id` is not used by any catalog entry. */
  predicate IsFresh(products: seq<Product>, id: Id) {
    forall i :: 0 <= i < |products| ==> products[i].id != id
  }

  /** The catalog the store starts with. */
  function Seed(): (r: seq<Product>)
    ensures |r| == 3 && UniqueIds(r)
    ensures forall i :: 0 <= i < |r| ==> r[i].id == i + 1 && r[i].name != [] && r[i].price > 0
  {
    [ Product(1, "SkyBag", 999),
      Product(2, "Washing Machine", 499),
      Product(3, "Water Bottle", 199) ]
  }

  /**
   * The add-product form's submit guard. `price` is the form's price field:
   * `None` when the field is empty, otherwise the number typed in. A
   * submission goes through only with a non-empty name and a positive price.
   */
  function AcceptSubmission(name: string, price: Option<int>): (r: Option<Draft>)
    ensures r.Some? <==> name != [] && price.Some? && price.value > 0
    ensures r.Some? ==> r.value.name == name && r.value.price == price.value
  {
    if name == [] || price.None? || price.value <= 0 then None
    else Some(Draft(name, price.value))
  }

  /** The catalog after registering `d` under identifier `id`: the new entry goes at the end. */
  function Register(products: seq<Product>, id: Id, d: Draft): (r: seq<Product>)
    ensures |r| == |products| + 1
    ensures products <= r
    ensures r[|products|].id == id && r[|products|].name == d.name && r[|products|].price == d.price
  {
    products + [Product(id, d.name, d.price)]
  }

  /** Registration keeps the identifiers unique exactly when the new identifier was fresh. */
  lemma RegisterUniqueIff(products: seq<Product>, id: Id, d: Draft)
    requires UniqueIds(products)
    ensures UniqueIds(Register(products, id, d)) <==> IsFresh(products, id)
    ensures !IsFresh(Register(products, id, d), id)
  {
    var r := Register(products, id, d);
    var n := |products|;
    if !IsFresh(products, id) {
      var k :| 0 <= k < n && products[k].id == id;
      assert r[k].id == r[n].id;
    }
    assert r[n].id == id;
  }

  /** Registering several drafts one after another, each under the next identifier of `ids`. */
  function RegisterAll(products: seq<Product>, ids: seq<Id>, ds: seq<Draft>): (r: seq<Product>)
    requires |ids| == |ds|
    decreases |ds|
  {
    if ds == [] then products
    else RegisterAll(Register(products, ids[0], ds[0]), ids[1..], ds[1..])
  }

  /** Identifiers that are pairwise distinct. */
  predicate Distinct(ids: seq<Id>) {
    forall i, j :: 0 <= i < j < |ids| ==> ids[i] != ids[j]
  }

  /**
   * After any sequence of registrations with distinct identifiers that the
   * catalog did not already use, identifiers are still unique, the catalog
   * only grew at the end, and it grew by one entry per registration.
   */
  lemma {:induction false} RegisterAllMonotone(products: seq<Product>, ids: seq<Id>, ds: seq<Draft>)
    requires |ids| == |ds|
    requires UniqueIds(products) && Distinct(ids)
    requires forall k :: 0 <= k < |ids| ==> IsFresh(products, ids[k])
    ensures UniqueIds(RegisterAll(products, ids, ds))
    ensures products <= RegisterAll(products, ids, ds)
    ensures |RegisterAll(products, ids, ds)| == |products| + |ds|
    decreases |ds|
  {
    if ds != [] {
      var p' := Register(products, ids[0], ds[0]);
      RegisterUniqueIff(products, ids[0], ds[0]);
      forall k | 0 <= k < |ids[1..]|
        ensures IsFresh(p', ids[1..][k])
      {
        assert ids[1..][k] == ids[k + 1] && ids[0] != ids[k + 1];
        assert IsFresh(products, ids[k + 1]);
        forall i | 0 <= i < |p'|
          ensures p'[i].id != ids[k + 1]
        {
          if i < |products| { assert p'[i] == products[i]; }
        }
      }
      assert Distinct(ids[1..]) by {
        forall i, j | 0 <= i < j < |ids[1..]| ensures ids[1..][i] != ids[1..][j] {
          assert ids[1..][i] == ids[i + 1] && ids[1..][j] == ids[j + 1];
        }
      }
      RegisterAllMonotone(p', ids[1..], ds[1..]);
    }
  }
}
