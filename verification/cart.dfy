/**
 The persisted cart of the bakery storefront: an ordered sequence of line
 items, keyed by the item's name. Price is a type parameter `P` because no
 cart operation inspects it; only rendering does.
 */
module CartState {
  import opened Wrappers

  /** One entry of the cart as it is stored: `{name, price, quantity}`. */
  datatype LineItem<P> = LineItem(name: string, price: P, quantity: int)

  /** The cart, in insertion order. */
  type Cart<P> = seq<LineItem<P>>

  /** Some entry of `cart` carries `name`. */
  predicate HasName<P>(cart: Cart<P>, name: string) {
    exists j :: 0 <= j < |cart| && cart[j].name == name
  }

  /** No two entries share a name. */
  predicate NamesUnique<P>(cart: Cart<P>) {
    forall j, k :: 0 <= j < k < |cart| ==> cart[j].name != cart[k].name
  }

  /** Every quantity at rest is at least 1. */
  predicate QuantitiesPositive<P>(cart: Cart<P>) {
    forall j :: 0 <= j < |cart| ==> cart[j].quantity >= 1
  }

  /** The invariant every cart operation keeps. */
  predicate Valid<P>(cart: Cart<P>) {
    NamesUnique(cart) && QuantitiesPositive(cart)
  }

  /**
   The position of the first entry named `name`, as `Array.prototype.find`
   with `item.name === name` selects it; `None` when there is none.
   */
  function FindIndex<P>(cart: Cart<P>, name: string): (r: Option<nat>)
    ensures r.Some? ==> r.value < |cart| && cart[r.value].name == name
    ensures r.Some? ==> forall j :: 0 <= j < r.value ==> cart[j].name != name
    ensures r.None? <==> !HasName(cart, name)
  {
    if |cart| == 0 then None
    else if cart[0].name == name then Some(0)
    else match FindIndex(cart[1..], name)
      case None =>
        assert forall j :: 1 <= j < |cart| ==> cart[j] == cart[1..][j - 1];
        None
      case Some(i) => Some(i + 1)
  }

  /** The first entry named `name` is the one at `k`. */
  lemma FirstMatch<P>(cart: Cart<P>, name: string, k: nat)
    requires k < |cart| && cart[k].name == name
    requires forall j :: 0 <= j < k ==> cart[j].name != name
    ensures FindIndex(cart, name) == Some(k)
  {
  }

  /** With unique names, any entry named `name` is the one `FindIndex` returns. */
  lemma FindIndexUnique<P>(cart: Cart<P>, name: string, k: nat)
    requires NamesUnique(cart)
    requires k < |cart| && cart[k].name == name
    ensures FindIndex(cart, name) == Some(k)
  {
    FirstMatch(cart, name, k);
  }

  /** The quantity held for `name`: that of its (first) entry, or 0 when absent. */
  function QuantityOf<P>(cart: Cart<P>, name: string): (r: int) {
    match FindIndex(cart, name)
    case Some(k) => cart[k].quantity
    case None => 0
  }
}
