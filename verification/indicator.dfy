/**
 The navbar's item-count badge, derived from the cart: the count is the sum
 of all quantities, and the badge is hidden when that sum is not positive.
 */
module Indicator {
  import opened CartState

  /**
   The sum of all quantities, folded from the left as `cart.reduce((acc,
   item) => acc + item.quantity, 0)` does. When every quantity is at least 1
   the sum is at least the number of entries.
   */
  function TotalItems<P>(cart: Cart<P>): (r: int)
    ensures QuantitiesPositive(cart) ==> r >= |cart|
  {
    if |cart| == 0 then 0
    else TotalItems(cart[..|cart| - 1]) + cart[|cart| - 1].quantity
  }

  /** The count of a concatenation is the sum of the counts. */
  lemma {:induction false} TotalItemsAppend<P>(a: Cart<P>, b: Cart<P>)
    ensures TotalItems(a + b) == TotalItems(a) + TotalItems(b)
    decreases |b|
  {
    if |b| == 0 {
      assert a + b == a;
    } else {
      assert (a + b)[..|a + b| - 1] == a + b[..|b| - 1];
      TotalItemsAppend(a, b[..|b| - 1]);
    }
  }

  /** The count splits around any entry. */
  lemma TotalItemsSplit<P>(cart: Cart<P>, i: nat)
    requires i < |cart|
    ensures TotalItems(cart) == TotalItems(cart[..i]) + cart[i].quantity + TotalItems(cart[i + 1..])
  {
    var front, back := cart[..i + 1], cart[i + 1..];
    assert cart == front + back;
    TotalItemsAppend(front, back);
    assert front[..i] == cart[..i];
  }

  /** Replacing one entry changes the count by the difference of its quantity. */
  lemma TotalItemsUpdate<P>(cart: Cart<P>, i: nat, x: LineItem<P>)
    requires i < |cart|
    ensures TotalItems(cart[i := x]) == TotalItems(cart) - cart[i].quantity + x.quantity
  {
    var updated := cart[i := x];
    TotalItemsSplit(cart, i);
    TotalItemsSplit(updated, i);
    assert updated[..i] == cart[..i];
    assert updated[i + 1..] == cart[i + 1..];
  }

  /** Removing one entry lowers the count by its quantity. */
  lemma TotalItemsDelete<P>(cart: Cart<P>, i: nat)
    requires i < |cart|
    ensures TotalItems(cart[..i] + cart[i + 1..]) == TotalItems(cart) - cart[i].quantity
  {
    TotalItemsSplit(cart, i);
    TotalItemsAppend(cart[..i], cart[i + 1..]);
  }

  /** The reduce loop of `updateCartIndicator` computes the sum of quantities. */
  method CountItems<P>(cart: Cart<P>) returns (total: int)
    ensures total == TotalItems(cart)
  {
    total := 0;
    var i := 0;
    while i < |cart|
      invariant 0 <= i <= |cart|
      invariant total == TotalItems(cart[..i])
    {
      assert cart[..i + 1][..i] == cart[..i];
      total := total + cart[i].quantity;
      i := i + 1;
    }
    assert cart[..|cart|] == cart;
  }

  /** What the badge element shows. */
  datatype Badge = Hidden | Shown(count: int)

  /** The badge for `cart`: shown with the total when the total is positive. */
  function CartBadge<P>(cart: Cart<P>): (b: Badge)
    ensures b.Shown? <==> TotalItems(cart) > 0
    ensures b.Shown? ==> b.count == TotalItems(cart) && b.count > 0
  {
    var total := TotalItems(cart);
    if total > 0 then Shown(total) else Hidden
  }

  /** For a cart whose quantities are all at least 1, the badge is shown iff the cart is non-empty. */
  lemma BadgeShownIffNonEmpty<P>(cart: Cart<P>)
    requires QuantitiesPositive(cart)
    ensures CartBadge(cart).Shown? <==> |cart| > 0
    ensures CartBadge(cart).Shown? ==> CartBadge(cart).count >= |cart|
  {
    if |cart| > 0 {
      assert cart[..|cart| - 1] + [cart[|cart| - 1]] == cart;
    }
  }
}
