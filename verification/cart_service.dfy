/**
 * The cart service's write side. Saving a cart that has no close date closes it:
 * every ordered item's stock count is lowered by the order's quantity, the changed
 * items are saved, the cart is stamped with today's date and stored, and a ticket is
 * mailed. The cart table is a map from id to cart and the item stock is a map from
 * item id to count; the mail service and the clock are outside the model, so saving
 * items, storing a cart and sending a ticket are recorded in a ghost event log and
 * today's date is a parameter.
 */
module CartService {
  import opened Wrappers
  import opened Domain
  import JavaLang

  /** What the service did that the outside world can see, in order. */
  datatype Event =
    | ItemsSaved(items: seq<Item>)
    | CartStored(cart: Cart, closedAt: Option<Date>)
    | TicketSent(cart: Cart)

  /** The stock table: item id to count. */
  type Stock = map<int, int>

  /** Every count in the table is a Java `int`. */
  predicate StockInRange(stock: Stock) {
    forall id :: id in stock ==> JavaLang.IsInt32(stock[id])
  }

  /** The items the orders refer to. */
  function ItemsOf(os: set<Order>): set<Item>
    reads os
  {
    set o | o in os && o.item != null :: o.item as Item
  }

  lemma ItemsOfAdd(os: set<Order>, o: Order)
    requires o.item != null
    ensures ItemsOf(os + {o}) == ItemsOf(os) + {o.item}
  {
  }

  /** The id of the order's item, if the order has an item that has an id. */
  function ItemIdOf(o: Order): Option<int>
    reads o, o.item
  {
    if o.item == null then None else o.item.id
  }

  /** What the stock loop reads off one order: its item, that item's id, and its quantity (0 when unset). */
  datatype Line = Line(item: Item?, id: Option<int>, quantity: int)

  type Lines = map<Order, Line>

  ghost function LinesOf(os: set<Order>): (lines: Lines)
    reads os, ItemsOf(os)
    ensures lines.Keys == os
  {
    map o | o in os :: Line(o.item, ItemIdOf(o), o.quantity.GetOr(0))
  }

  /** What order `o` asks of item `id`: its quantity when it is for that item, else nothing. */
  ghost function Share(lines: Lines, o: Order, id: int): int {
    if o in lines && lines[o].id == Some(id) then lines[o].quantity else 0
  }

  /** How much of item `id` the orders `os` ask for, given what each order reads as. */
  ghost function DemandIn(lines: Lines, os: set<Order>, id: int): int
    requires os <= lines.Keys
  {
    if os == {} then 0
    else
      var o :| o in os;
      Share(lines, o, id) + DemandIn(lines, os - {o}, id)
  }

  /** How much of item `id` the orders ask for: the sum of the quantities of the orders for that item. */
  ghost function Demand(os: set<Order>, id: int): int
    reads os, ItemsOf(os)
  {
    DemandIn(LinesOf(os), os, id)
  }

  /** The sum does not depend on which order is taken first. */
  lemma {:induction false} DemandRemove(lines: Lines, os: set<Order>, o: Order, id: int)
    requires os <= lines.Keys && o in os
    ensures DemandIn(lines, os, id) == Share(lines, o, id) + DemandIn(lines, os - {o}, id)
    decreases |os|
  {
    var p :| p in os && DemandIn(lines, os, id) == Share(lines, p, id) + DemandIn(lines, os - {p}, id);
    if p != o {
      DemandRemove(lines, os - {p}, o, id);
      DemandRemove(lines, os - {o}, p, id);
      assert os - {p} - {o} == os - {o} - {p};
    }
  }

  /** Orders for other items do not count towards an item's demand. */
  lemma {:induction false} DemandOfUnorderedItem(os: set<Order>, id: int)
    requires forall o :: o in os ==> ItemIdOf(o) != Some(id)
    ensures Demand(os, id) == 0
  {
    UnorderedIn(LinesOf(os), os, id);
  }

  lemma {:induction false} UnorderedIn(lines: Lines, os: set<Order>, id: int)
    requires os <= lines.Keys && forall o :: o in os ==> lines[o].id != Some(id)
    ensures DemandIn(lines, os, id) == 0
    decreases |os|
  {
    if os != {} {
      var o :| o in os;
      DemandRemove(lines, os, o, id);
      UnorderedIn(lines, os - {o}, id);
    }
  }

  /** The demand accumulated along a visiting order `path`. */
  ghost function DemandAlong(lines: Lines, path: seq<Order>, id: int): int {
    if path == [] then 0
    else DemandAlong(lines, path[..|path| - 1], id) + Share(lines, path[|path| - 1], id)
  }

  /** `path` visits each order of `s` exactly once. */
  ghost predicate Enumerates(path: seq<Order>, s: set<Order>) {
    if path == [] then s == {}
    else path[|path| - 1] in s && Enumerates(path[..|path| - 1], s - {path[|path| - 1]})
  }

  /** Summing along any visiting order of `s` gives the demand of `s`. */
  lemma {:induction false} DemandAlongEnumeration(lines: Lines, path: seq<Order>, s: set<Order>, id: int)
    requires Enumerates(path, s) && s <= lines.Keys
    ensures DemandAlong(lines, path, id) == DemandIn(lines, s, id)
    decreases |path|
  {
    if path != [] {
      var o := path[|path| - 1];
      DemandAlongEnumeration(lines, path[..|path| - 1], s - {o}, id);
      DemandRemove(lines, s, o, id);
    }
  }

  /** The stock after the loop has visited `path`: each visited order's item lowered in `int` arithmetic. */
  ghost function Replay(stock: Stock, lines: Lines, path: seq<Order>): (r: Stock)
    ensures r.Keys == stock.Keys
  {
    if path == [] then stock
    else
      var before := Replay(stock, lines, path[..|path| - 1]);
      var o := path[|path| - 1];
      if o in lines && lines[o].id.Some? && lines[o].id.value in before then
        before[lines[o].id.value := JavaLang.Wrap32(before[lines[o].id.value] - lines[o].quantity)]
      else before
  }

  /** The items the loop meets along `path`, in order. */
  ghost function ItemsAlong(lines: Lines, path: seq<Order>): seq<Item?> {
    if path == [] then []
    else ItemsAlong(lines, path[..|path| - 1]) + [if path[|path| - 1] in lines then lines[path[|path| - 1]].item else null]
  }

  /**
   * What holds after the loop of `close` has visited `path`: the visited orders are
   * the ones no longer `remaining`, the counts are the replayed ones, and the batch
   * holds the items met.
   */
  ghost predicate Visited(stock: Stock, lines: Lines, orders: set<Order>, remaining: set<Order>, path: seq<Order>, lowered: Stock, modified: seq<Item?>) {
    && remaining <= orders
    && Enumerates(path, orders - remaining)
    && lowered == Replay(stock, lines, path)
    && modified == ItemsAlong(lines, path)
  }

  /** One turn of the loop: the order's item is lowered by its quantity and joins the batch. */
  lemma Step(stock: Stock, lines: Lines, orders: set<Order>, remaining: set<Order>, path: seq<Order>, lowered: Stock, modified: seq<Item?>, o: Order, id: int, q: int)
    requires Visited(stock, lines, orders, remaining, path, lowered, modified)
    requires o in remaining && o in lines && lines[o].id == Some(id) && lines[o].quantity == q && id in stock
    ensures id in lowered
    ensures Visited(stock, lines, orders, remaining - {o}, path + [o], lowered[id := JavaLang.Wrap32(lowered[id] - q)], modified + [lines[o].item])
  {
    assert (path + [o])[..|path|] == path;
    assert orders - (remaining - {o}) - {o} == orders - remaining;
  }

  /** Replaying a path lowers each count by the path's demand for it, wrapped once at the end. */
  lemma {:induction false} ReplayLowers(stock: Stock, lines: Lines, path: seq<Order>, id: int)
    requires id in stock && JavaLang.IsInt32(stock[id])
    ensures Replay(stock, lines, path)[id] == JavaLang.Wrap32(stock[id] - DemandAlong(lines, path, id))
    decreases |path|
  {
    var c := stock[id];
    if path == [] {
      JavaLang.WrapOfInt32(c);
    } else {
      var prefix, o := path[..|path| - 1], path[|path| - 1];
      ReplayLowers(stock, lines, prefix, id);
      if o in lines && lines[o].id == Some(id) {
        JavaLang.WrapThenSubtract(c, DemandAlong(lines, prefix, id), lines[o].quantity);
      }
    }
  }

  /** Once the loop has visited every order, the replayed stock is the lowered stock. */
  lemma ReplayedAll(stock: Stock, lines: Lines, path: seq<Order>, orders: set<Order>)
    requires StockInRange(stock) && Enumerates(path, orders) && orders == lines.Keys
    ensures LoweredBy(Replay(stock, lines, path), stock, lines)
  {
    forall id | id in stock
      ensures Replay(stock, lines, path)[id] == JavaLang.Wrap32(stock[id] - DemandIn(lines, lines.Keys, id))
    {
      ReplayLowers(stock, lines, path, id);
      DemandAlongEnumeration(lines, path, orders, id);
    }
  }

  /** When no order remains, the loop has lowered the stock and built the batch `close` promises. */
  lemma Finished(stock: Stock, lines: Lines, orders: set<Order>, path: seq<Order>, lowered: Stock, modified: seq<Item?>)
    requires StockInRange(stock) && Visited(stock, lines, orders, {}, path, lowered, modified)
    requires lines == LinesOf(orders) && forall o :: o in orders ==> o.item != null
    ensures Lowered(lowered, stock, orders) && IsBatchFor(modified, orders)
  {
    assert orders - {} == orders;
    BatchAlong(lines, path, orders);
    ReplayedAll(stock, lines, path, orders);
  }

  /** The batch `saveAll` gets: one entry per order, naming exactly the ordered items. */
  predicate IsBatchFor(batch: seq<Item?>, os: set<Order>)
    reads os
  {
    IsBatch(batch, ItemsOf(os), |os|)
  }

  /** `batch` has `count` entries and names exactly `items`. */
  predicate IsBatch(batch: seq<Item?>, items: set<Item>, count: nat) {
    (set i | i in batch) == items && |batch| == count
  }

  /** The items met along a visiting order of `s`, one per order, are the batch for `s`. */
  lemma {:induction false} BatchAlong(lines: Lines, path: seq<Order>, s: set<Order>)
    requires Enumerates(path, s)
    requires forall o :: o in s ==> o in lines && lines[o].item == o.item != null
    ensures forall i :: i in ItemsAlong(lines, path) ==> i != null
    ensures IsBatchFor(ItemsAlong(lines, path), s)
    decreases |path|
  {
    if path != [] {
      var n := |path| - 1;
      var o := path[n];
      BatchAlong(lines, path[..n], s - {o});
      ItemsOfAdd(s - {o}, o);
      assert s - {o} + {o} == s;
    }
  }

  /** Each count is its old value less the demand of the orders read as `lines`, wrapped to an `int`. */
  ghost predicate LoweredBy(stock: Stock, before: Stock, lines: Lines) {
    && stock.Keys == before.Keys
    && forall id :: id in before ==> stock[id] == JavaLang.Wrap32(before[id] - DemandIn(lines, lines.Keys, id))
  }

  /** Each count is its old value less the orders' demand for that item, wrapped to an `int`. */
  ghost predicate Lowered(stock: Stock, before: Stock, orders: set<Order>)
    reads orders, ItemsOf(orders)
  {
    LoweredBy(stock, before, LinesOf(orders))
  }

  /**
   * What closing needs: each order has an item whose id is in the stock table, and a
   * quantity (otherwise unboxing fails).
   */
  predicate Closable(stock: Stock, orders: set<Order>)
    reads orders, ItemsOf(orders)
  {
    forall o :: o in orders ==>
      && o.item != null && o.item.id.Some? && o.item.id.value in stock
      && o.quantity.Some? && JavaLang.IsInt32(o.quantity.value)
  }

  /**
   * The loop of `close`: for each order, its item's count becomes the count minus the
   * order's quantity in `int` arithmetic, unguarded; each item touched is appended to
   * the batch for `saveAll`.
   */
  method LowerStock(stock: Stock, orders: set<Order>) returns (lowered: Stock, modified: seq<Item>)
    requires StockInRange(stock) && Closable(stock, orders)
    ensures Lowered(lowered, stock, orders) && StockInRange(lowered)
    ensures IsBatchFor(modified, orders)
  {
    ghost var lines := LinesOf(orders);
    var remaining := orders;
    ghost var path: seq<Order> := [];
    lowered, modified := stock, [];
    assert orders - remaining == {};
    while remaining != {}
      invariant Visited(stock, lines, orders, remaining, path, lowered, modified)
      decreases |remaining|
    {
      var o :| o in remaining;
      var item: Item := o.item;
      var id, q := item.id.value, o.quantity.value;
      Step(stock, lines, orders, remaining, path, lowered, modified, o, id, q);
      lowered := lowered[id := JavaLang.Wrap32(lowered[id] - q)];
      modified := modified + [item];
      remaining := remaining - {o};
      path := path + [o];
    }
    Finished(stock, lines, orders, path, lowered, modified);
  }

  class CartService {
    /** The cart table. */
    var carts: map<int, Cart>
    /** The item table's counts, by item id. */
    var stock: Stock
    /** The next value of the id sequence. */
    var nextId: int
    /** Item saves, cart stores and tickets, oldest first. */
    ghost var log: seq<Event>

    /** Every stored id was handed out by the sequence already, so the next one is unused; counts are `int`s. */
    ghost predicate Valid()
      reads this
    {
      && (forall k :: k in carts ==> k < nextId)
      && StockInRange(stock)
    }

    constructor (initial: Stock)
      requires StockInRange(initial)
      ensures Valid() && carts == map[] && stock == initial && log == []
    {
      carts, stock, nextId, log := map[], initial, 1, [];
    }

    /**
     * `cartRepository.save`: a cart without an id gets the next id of the sequence; the
     * table then maps the id to the cart.
     */
    method Store(cart: Cart)
      requires Valid()
      modifies this, cart
      ensures Valid() && stock == old(stock)
      ensures cart.id.Some? && (old(cart.id).Some? ==> cart.id == old(cart.id))
      ensures old(cart.id).None? ==> cart.id.value !in old(carts)
      ensures carts == old(carts)[cart.id.value := cart]
      ensures log == old(log) + [CartStored(cart, cart.closedAt)]
      ensures cart.email == old(cart.email) && cart.closedAt == old(cart.closedAt) && cart.orders == old(cart.orders)
    {
      if cart.id.None? {
        cart.id := Some(nextId);
        nextId := nextId + 1;
      } else if cart.id.value >= nextId {
        nextId := cart.id.value + 1;
      }
      carts := carts[cart.id.value := cart];
      log := log + [CartStored(cart, cart.closedAt)];
    }

    /**
     * The effect of closing `cart` on `today`. An already closed cart: nothing changes.
     * An open cart: each ordered item's count is lowered by the cart's demand for it, in
     * `int` arithmetic and with no check that stock suffices; the changed items are saved
     * as one batch holding every ordered item; the cart gets today's date and is stored;
     * then exactly one ticket is sent for it.
     */
    twostate predicate ClosedOn(cart: Cart, today: Date)
      reads this, cart
    {
      if old(cart.closedAt).Some? then
        unchanged(this, cart)
      else
        && cart.closedAt == Some(today)
        && cart.orders == old(cart.orders) && cart.email == old(cart.email)
        && cart.id.Some? && (old(cart.id).Some? ==> cart.id == old(cart.id))
        && carts == old(carts)[cart.id.value := cart]
        && LoweredBy(stock, old(stock), old(LinesOf(cart.orders)))
        && |log| == |old(log)| + 3 && log[..|old(log)|] == old(log)
        && log[|old(log)|].ItemsSaved? && IsBatch(log[|old(log)|].items, old(ItemsOf(cart.orders)), |old(cart.orders)|)
        && log[|old(log)| + 1] == CartStored(cart, Some(today))
        && log[|old(log)| + 2] == TicketSent(cart)
    }

    /** `close`: an open cart is closed as `ClosedOn` says; a closed one is returned untouched. */
    method Close(cart: Cart, today: Date) returns (r: Cart)
      requires Valid()
      requires cart.closedAt.None? ==> Closable(stock, cart.orders)
      modifies this, cart
      ensures Valid() && r == cart
      ensures ClosedOn(cart, today)
    {
      if cart.closedAt.None? {
        ghost var lines, items, n := LinesOf(cart.orders), ItemsOf(cart.orders), |cart.orders|;
        var lowered, modified := LowerStock(stock, cart.orders);
        assert LoweredBy(lowered, stock, lines) && IsBatch(modified, items, n);
        stock := lowered;
        log := log + [ItemsSaved(modified)];
        cart.SetClosedAt(Some(today));
        Store(cart);
        log := log + [TicketSent(cart)];
      }
      r := cart;
    }

    /**
     * `save`: a cart without a close date is closed; a cart that has one is stored as
     * given, with no stock change and no ticket.
     */
    method Save(cart: Cart, today: Date) returns (r: Cart)
      requires Valid()
      requires cart.closedAt.None? ==> Closable(stock, cart.orders)
      modifies this, cart
      ensures Valid() && r == cart
      ensures old(cart.closedAt).None? ==> ClosedOn(cart, today)
      ensures old(cart.closedAt).Some? ==>
                && cart.closedAt == old(cart.closedAt) && cart.orders == old(cart.orders)
                && cart.email == old(cart.email)
                && cart.id.Some? && (old(cart.id).Some? ==> cart.id == old(cart.id))
                && (old(cart.id).None? ==> cart.id.value !in old(carts))
                && carts == old(carts)[cart.id.value := cart]
                && stock == old(stock)
                && log == old(log) + [CartStored(cart, cart.closedAt)]
    {
      if cart.closedAt.None? {
        r := Close(cart, today);
        return;
      }
      Store(cart);
      r := cart;
    }

    /** `deleteById`: the cart with that id leaves the table; `found` says whether there was one. */
    method Delete(id: int) returns (found: bool)
      requires Valid()
      modifies this
      ensures Valid()
      ensures found <==> id in old(carts)
      ensures carts == old(carts) - {id}
      ensures found ==> |carts| == |old(carts)| - 1
      ensures stock == old(stock) && log == old(log) && nextId == old(nextId)
    {
      found := id in carts;
      carts := carts - {id};
    }
  }

  /**
   * Closing twice: the second close finds the date set by the first and changes
   * nothing, so stock is lowered once and one ticket is sent.
   */
  method CloseTwice(service: CartService, cart: Cart, today: Date, later: Date)
    requires service.Valid() && cart.closedAt.None? && Closable(service.stock, cart.orders)
    modifies service, cart
    ensures service.Valid() && cart.closedAt == Some(today)
    ensures LoweredBy(service.stock, old(service.stock), old(LinesOf(cart.orders)))
    ensures |service.log| == |old(service.log)| + 3 && service.log[|service.log| - 1] == TicketSent(cart)
  {
    var r := service.Close(cart, today);
    r := service.Close(cart, later);
  }

  /** An item no order of the cart is for keeps its count. */
  lemma UnorderedItemKeepsCount(stock: Stock, before: Stock, orders: set<Order>, id: int)
    requires Lowered(stock, before, orders) && StockInRange(before) && id in before
    requires forall o :: o in orders ==> ItemIdOf(o) != Some(id)
    ensures stock[id] == before[id]
  {
    DemandOfUnorderedItem(orders, id);
    JavaLang.WrapOfInt32(before[id]);
  }

  /** In range, the new count is exactly the old one minus the demand, negative if stock ran short. */
  lemma ExactDecrement(stock: Stock, before: Stock, orders: set<Order>, id: int)
    requires Lowered(stock, before, orders) && id in before
    requires JavaLang.IsInt32(before[id] - Demand(orders, id))
    ensures stock[id] == before[id] - Demand(orders, id)
    ensures Demand(orders, id) > before[id] ==> stock[id] < 0
  {
    JavaLang.WrapOfInt32(before[id] - Demand(orders, id));
  }
}
