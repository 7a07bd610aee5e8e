/**
 * The shopper's cart: an ordered list of lines keyed by product id, the
 * merge-or-insert add, the filtering remove and the total.
 */
module Cart {
  import opened Catalog

  /** A cart line is a copy of a product's fields plus a quantity: `{ ...product, quantity }`. */
  datatype CartLine = CartLine(id: Id, name: string, price: nat, quantity: nat)

  /** What one line contributes to the total. */
  function Subtotal(l: CartLine): nat {
    l.price * l.quantity
  }

  /** The cart total, folded from the left starting at 0, as `calculateTotal` does. */
  function Total(lines: seq<CartLine>): nat {
    if lines == [] then 0
    else Total(lines[..|lines| - 1]) + Subtotal(lines[|lines| - 1])
  }

  /** The item count the cart header shows: the number of lines. */
  function Count(lines: seq<CartLine>): nat {
    |lines|
  }

  /** The number of units in the cart, for comparison with `Count`. */
  function Units(lines: seq<CartLine>): nat {
    if lines == [] then 0 else lines[0].quantity + Units(lines[1..])
  }

  /** Some line of the cart has identifier `id` (the `find` of add-to-cart succeeds). */
  predicate HasLine(cart: seq<CartLine>, id: Id) {
    exists i :: 0 <= i < |cart| && cart[i].id == id
  }

  /** At most one line per identifier. */
  predicate UniqueIds(cart: seq<CartLine>) {
    forall i, j :: 0 <= i < j < |cart| ==> cart[i].id != cart[j].id
  }

  /** Every quantity is at least 1. */
  predicate PositiveQuantities(cart: seq<CartLine>) {
    forall i :: 0 <= i < |cart| ==> cart[i].quantity >= 1
  }

  /** The invariant every cart the store holds satisfies. */
  predicate Wellformed(cart: seq<CartLine>) {
    UniqueIds(cart) && PositiveQuantities(cart)
  }

  /** The line a product becomes when it is first put in the cart. */
  function NewLine(p: Product): CartLine {
    CartLine(p.id, p.name, p.price, 1)
  }

  /** A line with one more unit; its name and price stay as they were. */
  function Bump(l: CartLine): CartLine {
    l.(quantity := l.quantity + 1)
  }

  /** The `map` of add-to-cart: every line with identifier `id` gains one unit. */
  function BumpMatching(cart: seq<CartLine>, id: Id): (r: seq<CartLine>)
    ensures |r| == |cart|
    ensures forall i :: 0 <= i < |cart| ==>
      r[i] == if cart[i].id == id then Bump(cart[i]) else cart[i]
  {
    if cart == [] then []
    else [if cart[0].id == id then Bump(cart[0]) else cart[0]] + BumpMatching(cart[1..], id)
  }

  /** Merge-or-insert: bump the line for `p.id` if there is one, otherwise append a new line. */
  function AddToCart(cart: seq<CartLine>, p: Product): seq<CartLine> {
    if HasLine(cart, p.id) then BumpMatching(cart, p.id) else cart + [NewLine(p)]
  }

  /** The `filter` of remove-from-cart: keep exactly the lines whose identifier is not `id`. */
  function RemoveFromCart(cart: seq<CartLine>, id: Id): seq<CartLine> {
    if cart == [] then []
    else (if cart[0].id == id then [] else [cart[0]]) + RemoveFromCart(cart[1..], id)
  }

  // ----- The total -----

  /** The total of a concatenation is the sum of the totals. */
  lemma {:induction false} TotalConcat(a: seq<CartLine>, b: seq<CartLine>)
    ensures Total(a + b) == Total(a) + Total(b)
    decreases |b|
  {
    if b == [] {
      assert a + b == a;
    } else {
      var b' := b[..|b| - 1];
      assert (a + b)[..|a + b| - 1] == a + b';
      TotalConcat(a, b');
    }
  }

  /** Appending a line adds exactly its subtotal; the empty cart totals 0. */
  lemma TotalSnoc(cart: seq<CartLine>, l: CartLine)
    ensures Total([]) == 0
    ensures Total(cart + [l]) == Total(cart) + Subtotal(l)
  {
    assert (cart + [l])[..|cart|] == cart;
  }

  /** Taking one element out of a sequence takes one occurrence out of its multiset. */
  lemma MultisetSplice(b: seq<CartLine>, i: nat)
    requires i < |b|
    ensures multiset(b[..i] + b[i + 1..]) == multiset(b) - multiset{b[i]}
  {
    var left, right := b[..i], b[i + 1..];
    SplitAt(b, i);
    assert multiset(b) == multiset(left) + multiset{b[i]} + multiset(right);
    assert multiset(left + right) == multiset(left) + multiset(right);
  }

  /** The total does not depend on the order of the lines. */
  lemma {:induction false} TotalPermutation(a: seq<CartLine>, b: seq<CartLine>)
    requires multiset(a) == multiset(b)
    ensures Total(a) == Total(b)
    decreases |a|
  {
    if a == [] {
      assert |multiset(b)| == 0;
      assert b == [];
    } else {
      var x := a[|a| - 1];
      var a' := a[..|a| - 1];
      assert a == a' + [x];
      assert x in multiset(b);
      var i :| 0 <= i < |b| && b[i] == x;
      var b' := b[..i] + b[i + 1..];
      MultisetSplice(b, i);
      assert multiset(a') == multiset(a) - multiset{x} by {
        assert multiset(a) == multiset(a') + multiset{x};
      }
      TotalPermutation(a', b');
      TotalSplice(b, i);
      TotalSnoc(a', x);
    }
  }

  /** Replacing one line changes the total by the difference of the two subtotals. */
  lemma TotalUpdate(cart: seq<CartLine>, i: nat, l: CartLine)
    requires i < |cart|
    ensures Total(cart[i := l]) + Subtotal(cart[i]) == Total(cart) + Subtotal(l)
  {
    var updated := cart[i := l];
    var left, right := cart[..i], cart[i + 1..];
    SplitAt(cart, i);
    SplitAt(updated, i);
    assert updated[..i] == left && updated[i + 1..] == right;
    TotalMiddle(left, cart[i], right);
    TotalMiddle(left, l, right);
  }

  /** A cart is the lines before position `i`, the line at `i`, and the lines after it. */
  lemma SplitAt(cart: seq<CartLine>, i: nat)
    requires i < |cart|
    ensures cart == cart[..i] + [cart[i]] + cart[i + 1..]
  {
  }

  /** A line between two others adds exactly its subtotal. */
  lemma TotalMiddle(left: seq<CartLine>, c: CartLine, right: seq<CartLine>)
    ensures Total(left + [c] + right) == Total(left + right) + Subtotal(c)
  {
    TotalConcat(left + [c], right);
    TotalSnoc(left, c);
    TotalConcat(left, right);
  }

  /** Taking one line out lowers the total by exactly its subtotal. */
  lemma TotalSplice(cart: seq<CartLine>, i: nat)
    requires i < |cart|
    ensures Total(cart[..i] + cart[i + 1..]) + Subtotal(cart[i]) == Total(cart)
  {
    var left, right := cart[..i], cart[i + 1..];
    SplitAt(cart, i);
    TotalMiddle(left, cart[i], right);
  }

  /** Every line's subtotal is part of the total. */
  lemma {:induction false} SubtotalBounded(cart: seq<CartLine>, i: nat)
    requires i < |cart|
    ensures Subtotal(cart[i]) <= Total(cart)
    decreases |cart|
  {
    if i < |cart| - 1 {
      SubtotalBounded(cart[..|cart| - 1], i);
    }
  }

  // ----- The item count -----

  /**
   * The displayed count is the number of lines, which is at most the number
   * of units, and equals it exactly when every line holds a single unit.
   */
  lemma {:induction false} CountVersusUnits(cart: seq<CartLine>)
    requires PositiveQuantities(cart)
    ensures Count(cart) <= Units(cart)
    ensures Count(cart) == Units(cart) <==> forall i :: 0 <= i < |cart| ==> cart[i].quantity == 1
    decreases |cart|
  {
    if cart != [] {
      var rest := cart[1..];
      assert PositiveQuantities(rest) by {
        forall i | 0 <= i < |rest| ensures rest[i].quantity >= 1 { assert rest[i] == cart[i + 1]; }
      }
      CountVersusUnits(rest);
      if forall i :: 0 <= i < |rest| ==> rest[i].quantity == 1 {
        if cart[0].quantity == 1 {
          forall i | 0 <= i < |cart| ensures cart[i].quantity == 1 {
            if i > 0 { assert cart[i] == rest[i - 1]; }
          }
        }
      } else {
        var k :| 0 <= k < |rest| && rest[k].quantity != 1;
        assert cart[k + 1] == rest[k];
      }
      if forall i :: 0 <= i < |cart| ==> cart[i].quantity == 1 {
        forall i | 0 <= i < |rest| ensures rest[i].quantity == 1 { assert rest[i] == cart[i + 1]; }
      }
    }
  }

  // ----- Add to cart -----

  /**
   * The two cases of add-to-cart. With a line for `p.id`: same length and
   * order, every line keeps its id, name and price, and exactly the
   * matching lines gain one unit. Without one: the old lines are a prefix
   * and a copy of `p` with quantity 1 is appended. Either way the cart
   * afterwards has a line for `p.id`.
   */
  lemma AddShape(cart: seq<CartLine>, p: Product)
    ensures var r := AddToCart(cart, p);
      HasLine(cart, p.id) ==>
        |r| == |cart| &&
        forall i :: 0 <= i < |cart| ==>
          r[i].id == cart[i].id && r[i].name == cart[i].name && r[i].price == cart[i].price &&
          r[i].quantity == (if cart[i].id == p.id then cart[i].quantity + 1 else cart[i].quantity)
    ensures var r := AddToCart(cart, p);
      !HasLine(cart, p.id) ==>
        |r| == |cart| + 1 && cart <= r &&
        r[|cart|].id == p.id && r[|cart|].name == p.name && r[|cart|].price == p.price &&
        r[|cart|].quantity == 1
    ensures HasLine(AddToCart(cart, p), p.id)
  {
    var r := AddToCart(cart, p);
    if HasLine(cart, p.id) {
      var i :| 0 <= i < |cart| && cart[i].id == p.id;
      assert r[i].id == p.id;
    } else {
      assert r[|cart|].id == p.id;
    }
  }

  /** With one line per id, adding a product that has a line bumps that line in place and nothing else. */
  lemma AddExisting(cart: seq<CartLine>, p: Product, i: nat)
    requires UniqueIds(cart)
    requires i < |cart| && cart[i].id == p.id
    ensures AddToCart(cart, p) == cart[i := Bump(cart[i])]
  {
    var r := AddToCart(cart, p);
    assert HasLine(cart, p.id);
    assert r == BumpMatching(cart, p.id);
    assert |r| == |cart[i := Bump(cart[i])]|;
    forall k | 0 <= k < |r| ensures r[k] == cart[i := Bump(cart[i])][k] {
      if k != i {
        assert cart[k].id != p.id;
      }
    }
  }

  /** Add-to-cart keeps one line per id and every quantity at least 1. */
  lemma AddPreservesWellformed(cart: seq<CartLine>, p: Product)
    requires Wellformed(cart)
    ensures Wellformed(AddToCart(cart, p))
  {
    var r := AddToCart(cart, p);
    AddShape(cart, p);
    if HasLine(cart, p.id) {
      forall i, j | 0 <= i < j < |r| ensures r[i].id != r[j].id {
        assert r[i].id == cart[i].id && r[j].id == cart[j].id;
      }
    } else {
      forall i, j | 0 <= i < j < |r| ensures r[i].id != r[j].id {
        if j == |cart| {
          assert r[i] == cart[i];
        } else {
          assert r[i] == cart[i] && r[j] == cart[j];
        }
      }
      forall i | 0 <= i < |r| ensures r[i].quantity >= 1 {
        if i < |cart| { assert r[i] == cart[i]; }
      }
    }
  }

  /** Adding a product that has no line yet raises the total by its price. */
  lemma AddTotalNew(cart: seq<CartLine>, p: Product)
    requires !HasLine(cart, p.id)
    ensures Total(AddToCart(cart, p)) == Total(cart) + p.price
  {
    TotalSnoc(cart, NewLine(p));
  }

  /** With one line per id, adding a product that has a line raises the total by that line's price. */
  lemma AddTotalExisting(cart: seq<CartLine>, p: Product, i: nat)
    requires UniqueIds(cart)
    requires i < |cart| && cart[i].id == p.id
    ensures Total(AddToCart(cart, p)) == Total(cart) + cart[i].price
  {
    var l := cart[i];
    var bumped := cart[i := Bump(l)];
    AddExisting(cart, p, i);
    TotalUpdate(cart, i, Bump(l));
    SubtotalBump(l);
  }

  /** One more unit adds one unit's price to a line's subtotal. */
  lemma SubtotalBump(l: CartLine)
    ensures Subtotal(Bump(l)) == Subtotal(l) + l.price
  {
    assert l.price * (l.quantity + 1) == l.price * l.quantity + l.price;
  }

  /** `n` successive add-to-cart calls with the same product. */
  function AddTimes(cart: seq<CartLine>, p: Product, n: nat): seq<CartLine> {
    if n == 0 then cart else AddToCart(AddTimes(cart, p, n - 1), p)
  }

  /** Bumping an id that only the last line carries bumps that line alone. */
  lemma AddToLast(cart: seq<CartLine>, l: CartLine, p: Product)
    requires !HasLine(cart, p.id) && l.id == p.id
    ensures AddToCart(cart + [l], p) == cart + [Bump(l)]
  {
    var prev := cart + [l];
    assert HasLine(prev, p.id) by { assert prev[|cart|] == l; }
    var r := BumpMatching(prev, p.id);
    assert |r| == |cart + [Bump(l)]|;
    forall k | 0 <= k < |r| ensures r[k] == (cart + [Bump(l)])[k] {
      if k < |cart| {
        assert prev[k] == cart[k];
        assert cart[k].id != p.id;
      }
    }
  }

  /**
   * Adding the same product `n >= 1` times to a cart with no line for it
   * leaves the earlier lines alone and ends in one line for it with
   * quantity `n`, which adds `n` times its price to the total.
   */
  lemma {:induction false} AddRepeatedly(cart: seq<CartLine>, p: Product, n: nat)
    requires n >= 1 && !HasLine(cart, p.id)
    ensures AddTimes(cart, p, n) == cart + [CartLine(p.id, p.name, p.price, n)]
    ensures Total(AddTimes(cart, p, n)) == Total(cart) + n * p.price
  {
    var l := CartLine(p.id, p.name, p.price, n);
    if n > 1 {
      AddRepeatedly(cart, p, n - 1);
      AddToLast(cart, CartLine(p.id, p.name, p.price, n - 1), p);
    } else {
      assert AddTimes(cart, p, 1) == AddToCart(cart, p);
    }
    TotalSnoc(cart, l);
  }

  /** From an empty cart, `n` add-to-cart calls give one line with quantity `n` and total `n * price`. */
  lemma AddRepeatedlyFromEmpty(p: Product, n: nat)
    requires n >= 1
    ensures AddTimes([], p, n) == [CartLine(p.id, p.name, p.price, n)]
    ensures Total(AddTimes([], p, n)) == n * p.price
    ensures Count(AddTimes([], p, n)) == 1
  {
    AddRepeatedly([], p, n);
  }

  // ----- Remove from cart -----

  /** After removal no line has the identifier, and the cart is no longer than before. */
  lemma {:induction false} RemoveShape(cart: seq<CartLine>, id: Id)
    ensures !HasLine(RemoveFromCart(cart, id), id)
    ensures |RemoveFromCart(cart, id)| <= |cart|
    decreases |cart|
  {
    if cart != [] {
      RemoveShape(cart[1..], id);
      var tail := RemoveFromCart(cart[1..], id);
      if cart[0].id != id {
        assert RemoveFromCart(cart, id) == [cart[0]] + tail;
        forall k | 0 <= k < |tail| + 1 ensures ([cart[0]] + tail)[k].id != id {
          if k > 0 { assert ([cart[0]] + tail)[k] == tail[k - 1]; }
        }
      }
    }
  }

  /** A line survives removal exactly when it was in the cart and its identifier differs. */
  lemma {:induction false} RemoveMembers(cart: seq<CartLine>, id: Id, l: CartLine)
    ensures l in RemoveFromCart(cart, id) <==> l in cart && l.id != id
    decreases |cart|
  {
    if cart != [] {
      RemoveMembers(cart[1..], id, l);
      assert cart == [cart[0]] + cart[1..];
    }
  }

  /** Filtering distributes over concatenation, so the surviving lines keep their relative order. */
  lemma {:induction false} RemoveConcat(a: seq<CartLine>, b: seq<CartLine>, id: Id)
    ensures RemoveFromCart(a + b, id) == RemoveFromCart(a, id) + RemoveFromCart(b, id)
    decreases |a|
  {
    if a == [] {
      assert a + b == b;
    } else {
      assert (a + b)[0] == a[0] && (a + b)[1..] == a[1..] + b;
      RemoveConcat(a[1..], b, id);
    }
  }

  /** Removing is a no-op exactly when no line has the identifier. */
  lemma {:induction false} RemoveAbsent(cart: seq<CartLine>, id: Id)
    ensures RemoveFromCart(cart, id) == cart <==> !HasLine(cart, id)
    decreases |cart|
  {
    RemoveShape(cart, id);
    if cart != [] {
      if !HasLine(cart, id) {
        assert !HasLine(cart[1..], id) by {
          forall i | 0 <= i < |cart[1..]| ensures cart[1..][i].id != id { assert cart[1..][i] == cart[i + 1]; }
        }
        RemoveAbsent(cart[1..], id);
        assert cart == [cart[0]] + cart[1..];
      }
    }
  }

  /** Removing twice is the same as removing once. */
  lemma RemoveIdempotent(cart: seq<CartLine>, id: Id)
    ensures RemoveFromCart(RemoveFromCart(cart, id), id) == RemoveFromCart(cart, id)
  {
    RemoveShape(cart, id);
    RemoveAbsent(RemoveFromCart(cart, id), id);
  }

  /** With one line per id, removing the line at position `i` splices exactly it out. */
  lemma RemovePresent(cart: seq<CartLine>, id: Id, i: nat)
    requires UniqueIds(cart)
    requires i < |cart| && cart[i].id == id
    ensures RemoveFromCart(cart, id) == cart[..i] + cart[i + 1..]
  {
    var left, right, c := cart[..i], cart[i + 1..], cart[i];
    SplitAt(cart, i);
    assert RemoveFromCart(left, id) == left by {
      assert !HasLine(left, id) by {
        forall k | 0 <= k < |left| ensures left[k].id != id { assert left[k] == cart[k]; }
      }
      RemoveAbsent(left, id);
    }
    assert RemoveFromCart(right, id) == right by {
      assert !HasLine(right, id) by {
        forall k | 0 <= k < |right| ensures right[k].id != id { assert right[k] == cart[i + 1 + k]; }
      }
      RemoveAbsent(right, id);
    }
    assert RemoveFromCart(left + [c], id) == left by {
      RemoveConcat(left, [c], id);
      assert RemoveFromCart([c], id) == [];
    }
    RemoveConcat(left + [c], right, id);
  }

  /** Remove-from-cart keeps one line per id and every quantity at least 1. */
  lemma {:induction false} RemovePreservesWellformed(cart: seq<CartLine>, id: Id)
    requires Wellformed(cart)
    ensures Wellformed(RemoveFromCart(cart, id))
    decreases |cart|
  {
    if cart != [] {
      var rest := cart[1..];
      assert Wellformed(rest) by {
        forall i | 0 <= i < |rest| ensures rest[i] == cart[i + 1] { }
      }
      RemovePreservesWellformed(rest, id);
      var tail := RemoveFromCart(rest, id);
      var r := RemoveFromCart(cart, id);
      if cart[0].id != id {
        assert r == [cart[0]] + tail;
        forall k | 0 <= k < |tail| ensures tail[k].id != cart[0].id {
          RemoveMembers(rest, id, tail[k]);
          assert tail[k] in rest;
          var m :| 0 <= m < |rest| && rest[m] == tail[k];
          assert rest[m] == cart[m + 1];
        }
        forall i, j | 0 <= i < j < |r| ensures r[i].id != r[j].id {
          if i > 0 { assert r[i] == tail[i - 1] && r[j] == tail[j - 1]; }
          else { assert r[j] == tail[j - 1]; }
        }
        forall i | 0 <= i < |r| ensures r[i].quantity >= 1 {
          if i > 0 { assert r[i] == tail[i - 1]; }
        }
      } else {
        assert r == tail;
      }
    }
  }

  /** Under the invariant, removing a present line lowers the total by that line's subtotal; an absent one changes nothing. */
  lemma RemoveTotal(cart: seq<CartLine>, id: Id)
    requires UniqueIds(cart)
    ensures !HasLine(cart, id) ==> Total(RemoveFromCart(cart, id)) == Total(cart)
    ensures forall i :: 0 <= i < |cart| && cart[i].id == id ==>
      Total(RemoveFromCart(cart, id)) == Total(cart) - Subtotal(cart[i])
  {
    RemoveAbsent(cart, id);
    forall i | 0 <= i < |cart| && cart[i].id == id
      ensures Total(RemoveFromCart(cart, id)) == Total(cart) - Subtotal(cart[i])
    {
      RemovePresent(cart, id, i);
      TotalSplice(cart, i);
    }
  }
}
