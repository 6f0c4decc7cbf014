/**
 The three cart operations of the storefront script, each as a pure
 cart-to-cart function: merge-by-name add, per-row quantity change, and
 remove-by-name.
 */
module Operations {
  import opened Wrappers
  import opened CartState
  import opened Indicator

  // ---------------------------------------------------------------------
  // Input guards
  // ---------------------------------------------------------------------

  /** The guard of `addToCart`: a quantity below 1 is refused with an alert. */
  predicate AddAccepts(quantity: int) {
    quantity >= 1
  }

  /** The guard of the quantity input: a value that does not parse, or is below 1, is refused. */
  predicate EditAccepts(entered: Option<int>) {
    entered.Some? && entered.value >= 1
  }

  // ---------------------------------------------------------------------
  // Add (addToCart)
  // ---------------------------------------------------------------------

  /**
   Adds `quantity` of `name` at `price`. A quantity below 1 is rejected and
   the cart is returned unchanged. Otherwise the first entry named `name`
   has its quantity raised by `quantity` (its price is kept, the new price
   is ignored), or, when there is none, a new entry is appended.
   */
  function AddToCart<P>(cart: Cart<P>, name: string, price: P, quantity: int): (r: Cart<P>)
    ensures !AddAccepts(quantity) ==> r == cart
    ensures AddAccepts(quantity) && !HasName(cart, name) ==> r == cart + [LineItem(name, price, quantity)]
    ensures AddAccepts(quantity) && HasName(cart, name) ==>
      && |r| == |cart|
      && forall j :: 0 <= j < |cart| ==> r[j].name == cart[j].name && r[j].price == cart[j].price
    ensures AddAccepts(quantity) && HasName(cart, name) && NamesUnique(cart) ==>
      forall j :: 0 <= j < |cart| ==>
        r[j].quantity == if cart[j].name == name then cart[j].quantity + quantity else cart[j].quantity
    ensures Valid(cart) ==> Valid(r)
  {
    if !AddAccepts(quantity) then cart
    else match FindIndex(cart, name)
      case Some(k) =>
        assert NamesUnique(cart) ==> forall j :: 0 <= j < |cart| && j != k ==> cart[j].name != name;
        cart[k := cart[k].(quantity := cart[k].quantity + quantity)]
      case None => cart + [LineItem(name, price, quantity)]
  }

  /** An accepted add of `quantity` raises the quantity held for `name` by exactly that much. */
  lemma AddToCartQuantityOf<P>(cart: Cart<P>, name: string, price: P, quantity: int)
    requires AddAccepts(quantity)
    ensures QuantityOf(AddToCart(cart, name, price, quantity), name) == QuantityOf(cart, name) + quantity
  {
    var r := AddToCart(cart, name, price, quantity);
    match FindIndex(cart, name)
    case Some(k) =>
      FirstMatch(r, name, k);
    case None =>
      FirstMatch(r, name, |cart|);
  }

  /** An add for one name leaves the quantity held for every other name alone. */
  lemma AddToCartOtherQuantity<P>(cart: Cart<P>, name: string, price: P, quantity: int, other: string)
    requires other != name
    ensures QuantityOf(AddToCart(cart, name, price, quantity), other) == QuantityOf(cart, other)
  {
    var r := AddToCart(cart, name, price, quantity);
    if AddAccepts(quantity) {
      match FindIndex(cart, other)
      case Some(k) =>
        FirstMatch(r, other, k);
      case None =>
        assert !HasName(r, other);
    }
  }

  /** After an accepted add of `quantity`, the indicator count rises by exactly `quantity`. */
  lemma AddToCartTotalItems<P>(cart: Cart<P>, name: string, price: P, quantity: int)
    requires AddAccepts(quantity)
    ensures TotalItems(AddToCart(cart, name, price, quantity)) == TotalItems(cart) + quantity
  {
    var r := AddToCart(cart, name, price, quantity);
    match FindIndex(cart, name)
    case Some(k) =>
      var merged := cart[k].(quantity := cart[k].quantity + quantity);
      assert r == cart[k := merged];
      TotalItemsUpdate(cart, k, merged);
    case None =>
      assert r == cart + [LineItem(name, price, quantity)];
      assert r[..|r| - 1] == cart;
  }

  /** One call of `addToCart` with the given price and quantity. */
  datatype AddRequest<P> = AddRequest(price: P, quantity: int)

  /** A series of adds of the same name, applied in order. */
  function AddAll<P>(cart: Cart<P>, name: string, requests: seq<AddRequest<P>>): (r: Cart<P>)
    decreases |requests|
  {
    if |requests| == 0 then cart
    else AddAll(AddToCart(cart, name, requests[0].price, requests[0].quantity), name, requests[1..])
  }

  /** The sum of the quantities the guard accepts (those at least 1). */
  function AcceptedTotal<P>(requests: seq<AddRequest<P>>): (r: int)
    ensures r >= 0
    decreases |requests|
  {
    if |requests| == 0 then 0
    else (if AddAccepts(requests[0].quantity) then requests[0].quantity else 0) + AcceptedTotal(requests[1..])
  }

  /**
   Repeated adds of one name merge: the cart stays valid, the name is held by
   one entry exactly when it was there before or some add was accepted, and
   that entry's quantity is the old one plus the sum of accepted quantities.
   The cart grows by one entry at most.
   */
  lemma {:induction false} AddAllMerges<P>(cart: Cart<P>, name: string, requests: seq<AddRequest<P>>)
    requires Valid(cart)
    ensures Valid(AddAll(cart, name, requests))
    ensures HasName(AddAll(cart, name, requests), name) <==> HasName(cart, name) || AcceptedTotal(requests) > 0
    ensures QuantityOf(AddAll(cart, name, requests), name) == QuantityOf(cart, name) + AcceptedTotal(requests)
    ensures |AddAll(cart, name, requests)| == |cart| + (if !HasName(cart, name) && AcceptedTotal(requests) > 0 then 1 else 0)
    decreases |requests|
  {
    if |requests| > 0 {
      var first := requests[0];
      var next := AddToCart(cart, name, first.price, first.quantity);
      if AddAccepts(first.quantity) {
        AddToCartQuantityOf(cart, name, first.price, first.quantity);
        assert HasName(next, name) by {
          if HasName(cart, name) {
            var k :| 0 <= k < |cart| && cart[k].name == name;
            assert next[k].name == name;
          } else {
            assert next[|cart|].name == name;
          }
        }
      }
      AddAllMerges(next, name, requests[1..]);
    }
  }

  // ---------------------------------------------------------------------
  // Change quantity (the quantity input's change handler)
  // ---------------------------------------------------------------------

  /**
   The quantity input of row `row` was changed; `entered` is the parsed value,
   `None` when it is not a number. A missing or sub-1 value is rejected and
   the cart is unchanged; otherwise that row's quantity becomes the value.
   */
  function ChangeQuantity<P>(cart: Cart<P>, row: nat, entered: Option<int>): (r: Cart<P>)
    requires row < |cart|
    ensures !EditAccepts(entered) ==> r == cart
    ensures EditAccepts(entered) ==>
      && |r| == |cart|
      && r[row].name == cart[row].name
      && r[row].price == cart[row].price
      && r[row].quantity == entered.value
      && forall j :: 0 <= j < |cart| && j != row ==> r[j] == cart[j]
    ensures Valid(cart) ==> Valid(r)
  {
    if !EditAccepts(entered) then cart
    else cart[row := cart[row].(quantity := entered.value)]
  }

  /** Sets the quantity of every entry named `name`: the by-name form of a quantity change. */
  function SetQuantityByName<P>(cart: Cart<P>, name: string, quantity: int): (r: Cart<P>)
    ensures |r| == |cart|
  {
    seq(|cart|, j requires 0 <= j < |cart| =>
      if cart[j].name == name then cart[j].(quantity := quantity) else cart[j])
  }

  /** With unique names, changing a row's quantity is setting the quantity of that row's name. */
  lemma ChangeQuantityByName<P>(cart: Cart<P>, row: nat, quantity: int)
    requires NamesUnique(cart) && row < |cart| && EditAccepts(Some(quantity))
    ensures ChangeQuantity(cart, row, Some(quantity)) == SetQuantityByName(cart, cart[row].name, quantity)
  {
  }

  /** An accepted quantity change moves the indicator count by the difference. */
  lemma ChangeQuantityTotalItems<P>(cart: Cart<P>, row: nat, quantity: int)
    requires row < |cart| && EditAccepts(Some(quantity))
    ensures TotalItems(ChangeQuantity(cart, row, Some(quantity))) == TotalItems(cart) - cart[row].quantity + quantity
  {
    TotalItemsUpdate(cart, row, cart[row].(quantity := quantity));
  }

  // ---------------------------------------------------------------------
  // Remove (the remove button's click handler)
  // ---------------------------------------------------------------------

  /**
   Keeps the entries whose name differs from `name`, in their order, as
   `cart.filter(i => i.name !== name)` does.
   */
  function RemoveItem<P>(cart: Cart<P>, name: string): (r: Cart<P>)
    ensures forall j :: 0 <= j < |r| ==> r[j] in cart && r[j].name != name
    ensures forall j :: 0 <= j < |cart| && cart[j].name != name ==> cart[j] in r
    ensures !HasName(r, name)
    ensures |r| <= |cart|
  {
    if |cart| == 0 then []
    else
      var rest := RemoveItem(cart[1..], name);
      assert forall j :: 1 <= j < |cart| ==> cart[j] == cart[1..][j - 1];
      if cart[0].name == name then rest
      else
        var r := [cart[0]] + rest;
        assert forall j :: 1 <= j < |r| ==> r[j] == rest[j - 1];
        r
  }

  /** Putting an entry with a fresh name and a positive quantity in front of a valid cart keeps it valid. */
  lemma ConsValid<P>(x: LineItem<P>, s: Cart<P>)
    requires Valid(s) && x.quantity >= 1
    requires forall j :: 0 <= j < |s| ==> s[j].name != x.name
    ensures Valid([x] + s)
  {
    var r := [x] + s;
    assert forall j :: 1 <= j < |r| ==> r[j] == s[j - 1];
  }

  /** Removal keeps names unique and quantities at least 1. */
  lemma {:induction false} RemoveItemValid<P>(cart: Cart<P>, name: string)
    requires Valid(cart)
    ensures Valid(RemoveItem(cart, name))
  {
    if |cart| > 0 {
      var rest := cart[1..];
      assert forall j :: 0 <= j < |rest| ==> rest[j] == cart[j + 1];
      RemoveItemValid(rest, name);
      if cart[0].name != name {
        var kept := RemoveItem(rest, name);
        forall j | 0 <= j < |kept|
          ensures kept[j].name != cart[0].name
        {
          var k :| 0 <= k < |rest| && rest[k] == kept[j];
        }
        ConsValid(cart[0], kept);
      }
    }
  }

  /** Removing a name no entry carries leaves the cart unchanged. */
  lemma {:induction false} RemoveItemAbsent<P>(cart: Cart<P>, name: string)
    requires !HasName(cart, name)
    ensures RemoveItem(cart, name) == cart
  {
    if |cart| > 0 {
      assert cart[0].name != name;
      assert !HasName(cart[1..], name) by {
        assert forall j :: 0 <= j < |cart| - 1 ==> cart[1..][j] == cart[j + 1];
      }
      RemoveItemAbsent(cart[1..], name);
      assert cart == [cart[0]] + cart[1..];
    }
  }

  /** Filtering distributes over concatenation, so the kept entries keep their relative order. */
  lemma {:induction false} RemoveItemAppend<P>(a: Cart<P>, b: Cart<P>, name: string)
    ensures RemoveItem(a + b, name) == RemoveItem(a, name) + RemoveItem(b, name)
    decreases |a|
  {
    if |a| > 0 {
      assert (a + b)[0] == a[0];
      assert (a + b)[1..] == a[1..] + b;
      RemoveItemAppend(a[1..], b, name);
    } else {
      assert a + b == b;
    }
  }

  /**
   With unique names, removing the name held at position `k` deletes exactly
   that entry: the result is the cart with position `k` cut out, one shorter,
   and the count drops by that entry's quantity.
   */
  lemma RemoveItemUnique<P>(cart: Cart<P>, name: string, k: nat)
    requires NamesUnique(cart) && k < |cart| && cart[k].name == name
    ensures RemoveItem(cart, name) == cart[..k] + cart[k + 1..]
    ensures |RemoveItem(cart, name)| == |cart| - 1
    ensures TotalItems(RemoveItem(cart, name)) == TotalItems(cart) - cart[k].quantity
  {
    var front, back := cart[..k], cart[k + 1..];
    var tail := [cart[k]] + back;
    assert cart == front + tail;
    assert !HasName(front, name) by {
      assert forall j :: 0 <= j < |front| ==> front[j] == cart[j];
    }
    assert !HasName(back, name) by {
      assert forall j :: 0 <= j < |back| ==> back[j] == cart[k + 1 + j];
    }
    RemoveItemAbsent(front, name);
    RemoveItemAbsent(back, name);
    RemoveItemAppend(front, tail, name);
    assert tail[0] == cart[k] && tail[1..] == back;
    assert RemoveItem(tail, name) == back;
    TotalItemsDelete(cart, k);
  }

  /** With unique names, removal shortens the cart by one when the name is present and not at all otherwise. */
  lemma RemoveItemLength<P>(cart: Cart<P>, name: string)
    requires NamesUnique(cart)
    ensures |RemoveItem(cart, name)| == if HasName(cart, name) then |cart| - 1 else |cart|
  {
    if HasName(cart, name) {
      var k :| 0 <= k < |cart| && cart[k].name == name;
      RemoveItemUnique(cart, name, k);
    } else {
      RemoveItemAbsent(cart, name);
    }
  }
}
