# Almé's Bakery cart — a Dafny model

The bakery storefront keeps an ordered list of line items
`{name, price, quantity}` in the browser, keyed by item name. Three events
change it: an add-to-cart call that merges by name, a quantity edit on a row
of the cart page, and a row's remove button. A navbar badge shows the sum of
all quantities and is hidden when that sum is not positive.

The model is a set of pure functions over `seq<LineItem<P>>`. The price type
`P` is a type parameter because no cart operation looks at the price.

- `wrappers.dfy`: `Option`.
- `cart.dfy` (module `CartState`): `LineItem` and `Cart`, and the invariant
  `Valid` (names unique, every quantity at least 1). It also has `FindIndex`,
  which finds the first entry with a given name as `Array.prototype.find` does.
- `indicator.dfy` (module `Indicator`): the badge count `TotalItems`, a left
  fold like `reduce`, and the loop `CountItems` that computes it. Also the
  `Badge` state and its lemmas.
- `operations.dfy` (module `Operations`): `AddToCart`, `ChangeQuantity`,
  `RemoveItem`, with lemmas on quantities, counts, order and repeated adds.
- `session.dfy` (module `Session`): one state holds the stored cart, the
  cart snapshot the cart page's rows were drawn from, and the badge. Each save
  refreshes the badge, and a rejected command saves nothing. An add saves the
  stored cart without redrawing. A row event acts on its snapshot, saves the
  result and redraws from it. One lemma covers any series of events.

Three points where the code's behaviour is easy to misread, and which the model follows as written:

- The quantity handler changes the row object it was rendered with. That is
  a change by row position, not by name. `ChangeQuantityByName` shows the two
  agree when names are unique.
- "Remove shortens the cart by exactly one" holds only when names are
  unique. `RemoveItem` itself removes every entry with that name.
- The row handlers save the cart that was read when the page was drawn
  (script.js:43), not the cart as stored at the time of the event. Suppose an
  add happens after the cart view was drawn, and then a row is edited. The
  edit writes back the old snapshot, and the added item is lost.
  `Session.StaleSnapshotDropsAdd` shows this on a concrete page.

## Model

| member | source | states |
|---|---|---|
| CartState.FindIndex | script.js:23 | the result is the position of the first entry with the name; `None` exactly when no entry has it |
| CartState.FirstMatch | script.js:23 | an entry with the name and no earlier one is the entry `find` returns |
| CartState.FindIndexUnique | script.js:23 | when names are unique, any entry with the name is the one `find` returns |
| Operations.AddToCart | script.js:16-29 | a quantity below 1 leaves the cart unchanged; a new name is appended at the end and earlier entries stay; an existing name keeps the length, every name and every price, and when names are unique only that entry's quantity rises, by exactly the amount; the cart stays valid |
| Operations.AddToCartQuantityOf | script.js:23-28 | an accepted add raises the quantity held for the name by exactly the added amount |
| Operations.AddToCartOtherQuantity | script.js:23-28 | an add leaves the quantity held for every other name unchanged |
| Operations.AddToCartTotalItems | script.js:25-28 | after an accepted add of q, the badge count is exactly q higher |
| Operations.AddAllMerges | script.js:16-29 | after any series of adds of one name, the cart is valid; the name is present exactly when it was before or some add was accepted; its quantity is the old one plus the sum of accepted quantities; the cart grows by at most one entry |
| Operations.ChangeQuantity | script.js:74-84 | an input that does not parse, or a value below 1, leaves the cart unchanged; otherwise only that row's quantity becomes the value, its name and price stay, every other row stays, and the cart stays valid |
| Operations.ChangeQuantityByName | script.js:80 | when names are unique, changing a row's quantity equals setting the quantity of every entry with that row's name |
| Operations.ChangeQuantityTotalItems | script.js:80-81 | an accepted change moves the badge count by the new quantity minus the old one |
| Operations.RemoveItem | script.js:88 | every kept entry comes from the cart and has another name; every entry with another name is kept; no entry with the name is left; the cart never grows |
| Operations.RemoveItemValid | script.js:88 | removal keeps names unique and every quantity at least 1 |
| Operations.RemoveItemAbsent | script.js:88 | removing a name that no entry has leaves the cart unchanged |
| Operations.RemoveItemAppend | script.js:88 | removal splits over concatenation, so the kept entries stay in their original order |
| Operations.RemoveItemUnique | script.js:87-89 | when names are unique, removing the name at position k gives the cart with position k cut out; it is one shorter and the badge count drops by that entry's quantity |
| Operations.RemoveItemLength | script.js:88 | when names are unique, the length drops by 1 when the name is present and stays the same otherwise |
| Indicator.TotalItems | script.js:117 | the sum of quantities is at least the number of entries when every quantity is at least 1 |
| Indicator.CountItems | script.js:116-117 | the `reduce` loop computes exactly the sum of quantities |
| Indicator.CartBadge | script.js:119-124 | the badge is shown exactly when the sum is positive, and then shows that sum |
| Indicator.BadgeShownIffNonEmpty | script.js:119-124 | in a cart whose quantities are all at least 1, the badge is shown exactly when the cart is non-empty, and its count is at least the number of entries |
| Session.Step | script.js:74-91 | a rejected event changes nothing; an accepted one leaves the badge in step with the stored cart; an add leaves the drawn rows alone; a row event stores the result of acting on the drawn snapshot, not on the stored cart, and the page then shows what was stored; an accepted add stores `AddToCart` of the stored cart; a load keeps the stored cart and draws it when the page has a cart view, and otherwise draws nothing; every event keeps both carts valid and the badge in step |
| Session.RunKeepsInvariants | script.js:10-13 | from a page whose stored cart and drawn snapshot are valid and whose badge is in step, any series of events keeps names unique, quantities at least 1 and the badge in step with storage; the badge is shown exactly when the stored cart is non-empty |
| Session.EmptyPage | script.js:6 | before the first load nothing is stored or drawn, and that page keeps the invariant |
| Session.BreadScenario | script.js:16-29 | adding 2 bread and then 1 bread leaves one bread entry with quantity 3, and the badge shows 3 |
| Session.StaleSnapshotDropsAdd | script.js:43 | with `[Bread 2]` drawn, adding a cake and then editing row 0 to 5 leaves `[Bread 5]` stored: the add is overwritten by the snapshot |

## Left out

- Persistence (`getCart`/`saveCart`, script.js:5-13): `localStorage` and
  JSON are I/O. The stored cart is a value in the state. The model does not
  claim that malformed stored data is handled. At script.js:6 missing data
  gives `[]`, and so does stored JSON whose value is falsy (`null`, `false`,
  `0` or `""`), through the `|| []`. Any other text that is not valid JSON
  makes `JSON.parse` throw, and it is not treated as an empty cart.
- Parsing the quantity input (`parseInt`, script.js:75): the model takes the
  parsed value as an `Option<int>`, where `None` stands for `NaN`. Note that
  `parseInt` cuts `"2.5"` down to 2 and does not reject it.
- Quantities are unbounded integers. JavaScript numbers lose precision above
  2^53. A `NaN` passed to `addToCart` would get past its guard, because
  `NaN < 1` is false. A fractional quantity such as 1.5 also gets past the
  guard at script.js:17 and is stored. An integer model cannot express any of
  these cases. The
  callers of `addToCart` are in page markup, which is not part of this model.
- DOM rendering, `innerHTML` and enabling the order button (script.js:36-72,
  93-99) are UI. So are the `alert` messages (script.js:18, 32, 78) and
  resetting a rejected input to its old value (script.js:77). The model keeps
  only whether the cart view is drawn and from which snapshot.
- Line totals, the grand total and the order message (script.js:55-56, 96,
  101-104): these use floating-point `price * quantity` and `toFixed(2)`.
- `encodeURIComponent` and `window.open` to the messaging link
  (script.js:105-106): a foreign call and navigation.
- Page load (script.js:128-131) is the `Load` command: it refreshes the
  badge and draws the cart view when the page has one. The no-op when the
  badge element is missing (script.js:114) is not modelled: the model assumes
  the badge is on the page. Other browser tabs writing the same storage are
  not modelled either; only the events of one page are.
- AddToCart: the per-entry quantity clause assumes unique names. Without
  unique names only the first matching entry changes. That case is stated by
  `AddToCartQuantityOf` and `AddToCartTotalItems` rather than entry by entry.
- Session.BreadScenario: prices are integers (cents) in this instance, since
  the price type is a parameter.
