# Storefront cart and catalog, modelled in Dafny

This project models the state logic of a small React storefront. The model
covers four things:

- the catalog of products (three seed products, plus the ones registered through the add-product form);
- the shopper's cart, an ordered list of lines `{ id, name, price, quantity }`;
- the cart total, a fold of `price * quantity` over the lines starting from 0;
- the `App` object that owns both and replaces one of them on each command.

The modules follow the components:

- `Wrappers`: the `Option` datatype.
- `Catalog` (`catalog.dfy`): `Product`, `Draft` (the `{ name, price }` the form submits), the seed catalog, the form's submit guard, and `Register` (append-only registration under a given id).
- `Cart` (`cart.dfy`): `CartLine` and the three pure updaters the store uses. `AddToCart` is merge-or-insert: a `find`, then a `map` that bumps matching lines or an append. `RemoveFromCart` is a `filter`. `Total` is a left fold, like `reduce`. `Count` is the number of lines. The lemmas about them are here too.
- `Store` (`store.dfy`): the class `App`, with fields `products` and `cart`. Its methods `AddToCart`, `RemoveFromCart` and `HandleAddProduct` assign the updater's result to one field. `Submit` is the form's guard followed by `HandleAddProduct`. The module also holds the lemmas that tie cart lines back to catalog entries.

Prices and quantities are natural numbers. Prices use the store's own unit, as the seed data does (999, 499, 199). Identifiers are integers. The clock that supplies a new product's id (`Date.now()`) is a parameter `now`. `HandleAddProduct` requires that `now` is not already used in the catalog.

The invariants the `App` keeps (`App.Valid`) are:

- catalog ids are unique;
- the cart has at most one line per id;
- every quantity is at least 1.

A second predicate, `App.CartFromCatalog`, says that every line copies the id, name and price of some catalog entry. It is preserved whenever the product added to the cart comes from the catalog, which is what the product list's "Add to Cart" button always passes.

## Model

| member | source | states |
|---|---|---|
| `Catalog.Seed` | src/App.js:125-129 | The starting catalog has three entries with ids 1, 2 and 3, distinct ids, non-empty names and positive prices |
| `Catalog.AcceptSubmission` | src/App.js:82-83 | A form submission goes through exactly when the name is non-empty and the price field holds a number greater than 0; the draft then carries that name and price |
| `Catalog.Register` | src/App.js:172-179 | Registration appends exactly one entry at the end, with the given id, name and price; every earlier entry is untouched (the old catalog is a prefix) |
| `Catalog.RegisterUniqueIff` | src/App.js:172-179 | On a catalog with unique ids, ids stay unique after registration exactly when the new id was fresh, and the new id is then taken |
| `Catalog.RegisterAllMonotone` | src/App.js:172-179 | After any sequence of registrations with distinct fresh ids, ids are unique, the old catalog is a prefix of the new one, and the catalog grew by one entry per registration |
| `Cart.BumpMatching` | src/App.js:154-156 | The `map` of add-to-cart keeps the length, and each line gains one unit exactly when its id matches, keeping its own name and price |
| `Cart.AddShape` | src/App.js:149-164 | With a line for the product's id, the cart keeps its length and order, and exactly the matching lines gain one unit. Without one, the old cart is a prefix and one line copying the product with quantity 1 is appended. Either way the result has a line for that id |
| `Cart.AddExisting` | src/App.js:151-157 | With one line per id, adding a product whose id has a line at position i equals updating position i alone with one more unit |
| `Cart.AddPreservesWellformed` | src/App.js:149-164 | Add-to-cart keeps at most one line per id and every quantity at least 1 |
| `Cart.AddTotalNew` | src/App.js:158-161 | Adding a product with no line yet raises the total by the product's price |
| `Cart.AddTotalExisting` | src/App.js:151-157 | With one line per id, adding a product that has a line raises the total by that line's price |
| `Cart.AddToLast` | src/App.js:151-157 | When only the last line carries the product's id, add-to-cart bumps that line alone and keeps every earlier line |
| `Cart.AddRepeatedly` | src/App.js:149-164 | Adding the same product n >= 1 times to a cart without a line for it leaves earlier lines alone and ends in one line for it with quantity n, adding n times its price to the total |
| `Cart.AddRepeatedlyFromEmpty` | src/App.js:149-164 | From an empty cart, n >= 1 add-to-cart calls give exactly one line with quantity n, a line count of 1 and a total of n times the price |
| `Cart.RemoveShape` | src/App.js:166-170 | After removal no line has the id, and the cart is no longer than before |
| `Cart.RemoveMembers` | src/App.js:168 | A line is in the result exactly when it was in the cart and its id differs from the removed one |
| `Cart.RemoveConcat` | src/App.js:168 | Removal distributes over concatenation, so the remaining lines keep their relative order |
| `Cart.RemoveAbsent` | src/App.js:166-170 | Removal leaves the cart unchanged exactly when no line has the id |
| `Cart.RemoveIdempotent` | src/App.js:166-170 | Removing the same id twice gives the same cart as removing it once |
| `Cart.RemovePresent` | src/App.js:166-170 | With one line per id, removing the id of the line at position i splices out exactly that line |
| `Cart.RemovePreservesWellformed` | src/App.js:166-170 | Removal keeps at most one line per id and every quantity at least 1 |
| `Cart.RemoveTotal` | src/App.js:166-170 | With one line per id, removing an absent id leaves the total unchanged, and removing a present line lowers the total by exactly its price times quantity |
| `Cart.TotalSnoc` | src/App.js:6-8 | The empty cart totals 0, and appending a line adds exactly its price times quantity |
| `Cart.TotalConcat` | src/App.js:6-8 | The total of two concatenated carts is the sum of their totals |
| `Cart.TotalPermutation` | src/App.js:6-8 | Two carts holding the same lines in any order have the same total |
| `Cart.TotalUpdate` | src/App.js:6-8 | Replacing one line changes the total by the difference of the two lines' subtotals |
| `Cart.TotalMiddle` | src/App.js:6-8 | A line placed between two carts adds exactly its subtotal to their combined total |
| `Cart.TotalSplice` | src/App.js:6-8 | Taking one line out lowers the total by exactly that line's subtotal |
| `Cart.SubtotalBounded` | src/App.js:6-8 | No line's price times quantity exceeds the total |
| `Cart.CountVersusUnits` | src/App.js:57 | When every quantity is at least 1, the displayed count (number of lines) is at most the number of units, and equals it exactly when every line holds one unit |
| `Store.AddKeepsLinesFromCatalog` | src/App.js:18 | Adding a product taken from the catalog keeps every cart line a copy of some catalog entry |
| `Store.RemoveKeepsLinesFromCatalog` | src/App.js:166-170 | Removal keeps every remaining line a copy of some catalog entry |
| `Store.RegisterKeepsLinesFromCatalog` | src/App.js:172-179 | Registration never breaks a line's link to the catalog, because no entry is removed or changed |
| `Store.AddCatalogProductTotal` | src/App.js:149-164 | If catalog ids are unique and the cart was filled from the catalog, adding a catalog product raises the total by exactly that product's price, whether it merges or starts a new line |
| `Store.App.constructor` | src/App.js:122-131 | The store starts with the seed catalog and an empty cart, and the invariants hold |
| `Store.App.AddToCart` | src/App.js:149-164 | The cart becomes the merge-or-insert of the old cart and the catalog is unchanged; the invariants hold, and lines stay traceable to the catalog when the product is a catalog entry |
| `Store.App.RemoveFromCart` | src/App.js:166-170 | The cart becomes the filtered old cart and the catalog is unchanged; the invariants and traceability hold |
| `Store.App.HandleAddProduct` | src/App.js:172-180 | With a fresh clock value, the catalog becomes the old catalog with the new entry appended and the cart is unchanged; ids stay unique |
| `Store.App.Submit` | src/App.js:80-86 | The submission is accepted exactly when the name is non-empty and the price is positive. If accepted, the product is registered. If rejected, the catalog is unchanged and the clock value is not used. The cart never changes |

## Left out

- Rendering: the JSX components `Product`, `ProductList`, `CartItem`, `Cart`, `Footer` and the form markup (src/App.js:11-73, 88-117, 182-221) are presentation only. The model keeps the two values the cart view reads: `App.CartTotal` (line 52) and `App.ItemCount` (line 57).
- React lifecycle hooks, `componentDidUpdate`'s length check and every `console.log` (src/App.js:132-147, 208-213) are logging side effects.
- `ReactDOM.createRoot`, `render` and the CSS import (src/App.js:1-3, 223-224) are DOM and I/O plumbing.
- `parseFloat` and `toFixed(2)` (src/App.js:83, 68) are floating-point parsing and formatting. Prices are natural numbers, so fractional prices are not modelled.
- The price field is modelled as `Option<int>` (`None` for an empty field). Non-numeric text, which a number input reports as empty, is not modelled separately.
- The form's own state and its reset of both fields after a submission (src/App.js:77-78, 84-85) are input-widget state.
- `Date.now()` (src/App.js:174) is a clock read. It becomes the parameter `now`.
- `Store.App.HandleAddProduct`: requires `now` to be fresh. The source does not check this, so two products registered in the same millisecond would share an id; that case is not modelled.
- `setState` batching: each updater is treated as one atomic replacement of its field.
- `Store.App.AddToCart`: accepts any product, as the source does. Keeping cart lines traceable to the catalog is promised only for products that are catalog entries.
