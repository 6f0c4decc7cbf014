/**
 The storefront as a series of user events. The state is what is stored,
 the cart snapshot the cart page's rows were drawn from (none on pages
 without a cart view), and what the badge shows.

 Every save refreshes the badge. An add saves the stored cart and draws
 nothing. A row event acts on the snapshot its row was drawn from, saves
 that, and then redraws the page from what it saved. A rejected command
 (an alert) saves and draws nothing. Page load refreshes the badge and
 draws the cart view when the page has one.
 */
module Session {
  import opened Wrappers
  import opened CartState
  import opened Indicator
  import opened Operations

  /** The stored cart, the snapshot the rows were drawn from, and the badge. */
  datatype Page<P> = Page(stored: Cart<P>, rendered: Option<Cart<P>>, badge: Badge)

  /** The badge agrees with the stored cart. */
  predicate Consistent<P>(page: Page<P>) {
    page.badge == CartBadge(page.stored)
  }

  /** Both carts on the page are valid, and the badge agrees with the stored one. */
  predicate Invariant<P>(page: Page<P>) {
    && Valid(page.stored)
    && (page.rendered.Some? ==> Valid(page.rendered.value))
    && Consistent(page)
  }

  /** Storing a cart, after which the badge is refreshed from it. */
  function Save<P>(page: Page<P>, cart: Cart<P>): (r: Page<P>)
    ensures r.stored == cart && r.rendered == page.rendered
    ensures Consistent(r)
  {
    page.(stored := cart, badge := CartBadge(cart))
  }

  /**
   A user event: an add-to-cart call, a quantity edit on a row, a click on a
   row's remove button, or a page load (with or without a cart view).
   */
  datatype Command<P> =
    | Add(name: string, price: P, quantity: int)
    | EditQuantity(row: nat, entered: Option<int>)
    | RemoveRow(row: nat)
    | Load(hasCartView: bool)

  /** Row controls exist only for the rows of the drawn snapshot. */
  predicate Enabled<P>(page: Page<P>, command: Command<P>) {
    match command
    case EditQuantity(row, _) => page.rendered.Some? && row < |page.rendered.value|
    case RemoveRow(row) => page.rendered.Some? && row < |page.rendered.value|
    case _ => true
  }

  /** Whether a command gets past its input guard. */
  predicate Accepted<P>(command: Command<P>) {
    match command
    case Add(_, _, quantity) => AddAccepts(quantity)
    case EditQuantity(_, entered) => EditAccepts(entered)
    case _ => true
  }

  /** Whether an accepted command redraws the cart view from what it saved. */
  predicate Redraws<P>(command: Command<P>) {
    command.EditQuantity? || command.RemoveRow?
  }

  /**
   The page after one event. A rejected command changes nothing. An add
   changes the stored cart and the badge but not the drawn rows. A row event
   stores the result of acting on the drawn snapshot, not on the stored cart,
   and the page then shows what was stored. Every event keeps the invariant.
   */
  function Step<P>(page: Page<P>, command: Command<P>): (r: Page<P>)
    requires Enabled(page, command)
    ensures !Accepted(command) ==> r == page
    ensures Accepted(command) ==> Consistent(r)
    ensures command.Add? ==> r.rendered == page.rendered
    ensures command.Add? && Accepted(command) ==>
      r.stored == AddToCart(page.stored, command.name, command.price, command.quantity)
    ensures command.Load? ==>
      r.stored == page.stored && r.rendered == (if command.hasCartView then Some(page.stored) else None)
    ensures Accepted(command) && Redraws(command) ==> r.rendered == Some(r.stored)
    ensures command.EditQuantity? && Accepted(command) ==>
      r.stored == ChangeQuantity(page.rendered.value, command.row, command.entered)
    ensures command.RemoveRow? ==>
      r.stored == RemoveItem(page.rendered.value, page.rendered.value[command.row].name)
    ensures Invariant(page) ==> Invariant(r)
  {
    if !Accepted(command) then page
    else match command
      case Add(name, price, quantity) =>
        Save(page, AddToCart(page.stored, name, price, quantity))
      case EditQuantity(row, entered) =>
        var saved := ChangeQuantity(page.rendered.value, row, entered);
        Save(page, saved).(rendered := Some(saved))
      case RemoveRow(row) =>
        var snapshot := page.rendered.value;
        var name := snapshot[row].name;
        assert Valid(snapshot) ==> Valid(RemoveItem(snapshot, name)) by {
          if Valid(snapshot) {
            RemoveItemValid(snapshot, name);
          }
        }
        var saved := RemoveItem(snapshot, name);
        Save(page, saved).(rendered := Some(saved))
      case Load(hasCartView) =>
        Page(page.stored, if hasCartView then Some(page.stored) else None, CartBadge(page.stored))
  }

  /** Every command of the series is enabled on the page it reaches. */
  predicate Runs<P>(page: Page<P>, commands: seq<Command<P>>)
    decreases |commands|
  {
    |commands| == 0 || (Enabled(page, commands[0]) && Runs(Step(page, commands[0]), commands[1..]))
  }

  /** The page after a series of events. */
  function Run<P>(page: Page<P>, commands: seq<Command<P>>): (r: Page<P>)
    requires Runs(page, commands)
    decreases |commands|
  {
    if |commands| == 0 then page else Run(Step(page, commands[0]), commands[1..])
  }

  /**
   From a page that keeps the invariant, any series of events keeps names
   unique, quantities at least 1 and the badge in step with the stored cart.
   The badge is then shown exactly when the stored cart is non-empty.
   */
  lemma {:induction false} RunKeepsInvariants<P>(page: Page<P>, commands: seq<Command<P>>)
    requires Invariant(page)
    requires Runs(page, commands)
    ensures Invariant(Run(page, commands))
    ensures Run(page, commands).badge.Shown? <==> |Run(page, commands).stored| > 0
    decreases |commands|
  {
    if |commands| == 0 {
      BadgeShownIffNonEmpty(page.stored);
    } else {
      RunKeepsInvariants(Step(page, commands[0]), commands[1..]);
    }
  }

  /** The first visit, before the page has loaded: nothing stored, nothing drawn, the badge hidden. */
  function EmptyPage<P>(): (page: Page<P>)
    ensures Invariant(page) && page.stored == [] && page.rendered.None?
  {
    Page([], None, Hidden)
  }

  /** Two adds of bread, 2 and then 1, leave one bread entry of quantity 3, and the badge shows 3. */
  lemma BreadScenario()
    ensures Run(EmptyPage<int>(), [Add("Bread", 3500, 2), Add("Bread", 3500, 1)])
      == Page([LineItem("Bread", 3500, 3)], None, Shown(3))
  {
  }

  /**
   A row event saves the snapshot it was drawn from. When an add happens
   after the cart view was drawn, a later quantity edit on a row overwrites
   the stored cart with the old snapshot, and the added item is lost.
   */
  lemma StaleSnapshotDropsAdd()
    ensures
      var drawn := [LineItem("Bread", 3500, 2)];
      var start := Page(drawn, Some(drawn), Shown(2));
      var commands := [Add("Cake", 15000, 1), EditQuantity(0, Some(5))];
      && Runs(start, commands)
      && Step(start, commands[0]).stored == drawn + [LineItem("Cake", 15000, 1)]
      && Run(start, commands) == Page([LineItem("Bread", 3500, 5)], Some([LineItem("Bread", 3500, 5)]), Shown(5))
  {
    var drawn := [LineItem("Bread", 3500, 2)];
    var added := Step(Page(drawn, Some(drawn), Shown(2)), Add("Cake", 15000, 1));
    assert added.rendered == Some(drawn);
  }
}
