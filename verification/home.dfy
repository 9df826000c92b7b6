/**
 * The storefront page's cart builder. The page keeps an in-memory cart (an array of
 * client orders) and a pending order shown in a dialog. Opening the dialog on an item
 * reuses the cart's own order for that item when there is one, so the pending order
 * and the cart entry are then one and the same object; `Pending.InCart` records that
 * alias by index, `Pending.Fresh` a pending order that is not (yet) in the cart.
 */
module Home {
  import opened Wrappers

  /** An item as the page receives it. */
  datatype ClientItem = ClientItem(id: int, title: string, count: int)

  /** An order as the page builds it. */
  datatype ClientOrder = ClientOrder(itemId: int, itemTitle: string, quantity: int)

  /** What the pending order is: none, the cart's own entry at `index`, or a fresh record. */
  datatype Pending = NoOrder | InCart(index: nat) | Fresh(order: ClientOrder)

  /** `orders.find(({ itemId }) => itemId === id)`: the index of the first order for `id`. */
  function FindByItemId(orders: seq<ClientOrder>, id: int): (r: Option<nat>)
    ensures r.Some? ==> r.value < |orders| && orders[r.value].itemId == id
    ensures r.Some? ==> forall k :: 0 <= k < r.value ==> orders[k].itemId != id
    ensures r.None? <==> forall k :: 0 <= k < |orders| ==> orders[k].itemId != id
  {
    if orders == [] then None
    else if orders[0].itemId == id then Some(0)
    else match FindByItemId(orders[1..], id)
      case None => None
      case Some(k) => Some(k + 1)
  }

  /** At most one order per item. */
  predicate UniqueItemIds(orders: seq<ClientOrder>) {
    forall j, k :: 0 <= j < k < |orders| ==> orders[j].itemId != orders[k].itemId
  }

  /** In a cart with one order per item, the order found for an item is the only one for it. */
  lemma FindUnique(orders: seq<ClientOrder>, k: nat)
    requires UniqueItemIds(orders) && k < |orders|
    ensures FindByItemId(orders, orders[k].itemId) == Some(k)
  {
  }

  /**
   * The cart after `addToCart` with pending order `o`: when an order for the same item
   * is there, its quantity becomes `o`'s; otherwise `o` is appended.
   */
  function Added(orders: seq<ClientOrder>, o: ClientOrder): seq<ClientOrder> {
    match FindByItemId(orders, o.itemId)
    case None => orders + [o]
    case Some(j) => orders[j := orders[j].(quantity := o.quantity)]
  }

  /**
   * Adding is an upsert by item: the cart grows by one exactly when it had no order for
   * the item, afterwards holds one order for it with the pending quantity, and every
   * other order is as before; one order per item is kept.
   */
  lemma AddedUpserts(orders: seq<ClientOrder>, o: ClientOrder)
    requires UniqueItemIds(orders)
    ensures var r := Added(orders, o);
      && UniqueItemIds(r)
      && |r| == (if FindByItemId(orders, o.itemId).None? then |orders| + 1 else |orders|)
      && FindByItemId(r, o.itemId).Some?
      && r[FindByItemId(r, o.itemId).value].quantity == o.quantity
      && r[FindByItemId(r, o.itemId).value].itemId == o.itemId
      && (forall k :: 0 <= k < |orders| && orders[k].itemId != o.itemId ==> r[k] == orders[k])
  {
    var r := Added(orders, o);
    match FindByItemId(orders, o.itemId)
    case None =>
      FindUnique(r, |orders|);
    case Some(j) =>
      assert forall k :: 0 <= k < |r| ==> r[k].itemId == orders[k].itemId;
      FindUnique(r, j);
  }

  /**
   * The quantity `canAddToCart` checks against stock: the pending quantity plus the
   * quantity of the cart's order for the same item, when there is one.
   */
  function SyncedQuantity(orders: seq<ClientOrder>, o: ClientOrder): int {
    match FindByItemId(orders, o.itemId)
    case None => o.quantity
    case Some(j) => orders[j].quantity + o.quantity
  }

  /** `canAddToCart` on values: a non-negative pending quantity and enough of the selected item. */
  predicate CanAdd(orders: seq<ClientOrder>, o: ClientOrder, selected: Option<ClientItem>) {
    o.quantity >= 0 && selected.Some? && selected.value.count >= SyncedQuantity(orders, o)
  }

  /**
   * When the pending order is the cart's own entry, its quantity is counted twice: the
   * check passes only if stock covers twice the quantity.
   */
  lemma AliasedCheckDoubles(orders: seq<ClientOrder>, k: nat, selected: Option<ClientItem>)
    requires UniqueItemIds(orders) && k < |orders|
    ensures CanAdd(orders, orders[k], selected) <==>
              orders[k].quantity >= 0 && selected.Some? && selected.value.count >= 2 * orders[k].quantity
  {
    FindUnique(orders, k);
  }

  /** A pending order for an item not yet in the cart is checked against its own quantity only. */
  lemma FreshCheck(orders: seq<ClientOrder>, o: ClientOrder, selected: Option<ClientItem>)
    requires FindByItemId(orders, o.itemId).None?
    ensures CanAdd(orders, o, selected) <==> o.quantity >= 0 && selected.Some? && selected.value.count >= o.quantity
  {
  }

  /**
   * A cart holding 3 of an item with 5 in stock: with the dialog reopened and 3 kept,
   * the check returns false, although adding would leave the cart at 3, within stock.
   */
  lemma AliasedCheckRefusesFittingQuantity()
    ensures var orders := [ClientOrder(1, "mug", 3)];
      var selected := Some(ClientItem(1, "mug", 5));
      && !CanAdd(orders, orders[0], selected)
      && Added(orders, orders[0])[0].quantity <= selected.value.count
  {
    var orders := [ClientOrder(1, "mug", 3)];
    assert FindByItemId(orders, 1) == Some(0);
  }

  /**
   * The check the page evidently means: the quantity the cart will hold after adding fits
   * the stock. It is the range the quantity input itself declares (`min` 0, `max` the count).
   */
  predicate FitsStock(o: ClientOrder, selected: Option<ClientItem>) {
    o.quantity >= 0 && selected.Some? && selected.value.count >= o.quantity
  }

  /** `FitsStock` passes exactly when the cart's order for the item after adding is within stock. */
  lemma FitsStockMeansAddedFits(orders: seq<ClientOrder>, o: ClientOrder, selected: Option<ClientItem>)
    requires UniqueItemIds(orders)
    ensures var r := Added(orders, o);
      var found := FindByItemId(r, o.itemId);
      && found.Some?
      && (FitsStock(o, selected) <==>
            r[found.value].quantity >= 0 && selected.Some? && r[found.value].quantity <= selected.value.count)
  {
    AddedUpserts(orders, o);
  }

  /** The page's state: the dialog flag, the selected item, the cart's orders and the pending order. */
  class Home {
    var modal: bool
    var selected: Option<ClientItem>
    var cartOrders: seq<ClientOrder>
    var pending: Pending

    /**
     * One order per item in the cart; an aliased pending order points into the cart;
     * a fresh one is for an item the cart has no order for.
     */
    ghost predicate Valid()
      reads this
    {
      && UniqueItemIds(cartOrders)
      && (pending.InCart? ==> pending.index < |cartOrders|)
      && (pending.Fresh? ==> FindByItemId(cartOrders, pending.order.itemId).None?)
    }

    /**
     * The order the dialog edits. Looking its item up in the cart finds the pending
     * order's own position when it is aliased, and nothing when it is fresh.
     */
    function PendingOrder(): (o: ClientOrder)
      reads this
      requires Valid() && !pending.NoOrder?
      ensures FindByItemId(cartOrders, o.itemId) == (if pending.InCart? then Some(pending.index) else None)
    {
      match pending
      case InCart(i) => FindUnique(cartOrders, i); cartOrders[i]
      case Fresh(o) => o
    }

    /** The initial state: dialog closed, nothing selected, an empty cart, no pending order. */
    constructor ()
      ensures Valid()
      ensures !modal && selected.None? && cartOrders == [] && pending.NoOrder?
    {
      modal, selected, cartOrders, pending := false, None, [], NoOrder;
    }

    /**
     * `toggle(item)`: flips the dialog and selects `item`. For an item, the pending order
     * is the cart's own order for it when there is one (an alias), else a fresh order
     * for it with quantity 0; `toggle(null)` clears the pending order.
     */
    method Toggle(item: Option<ClientItem>)
      requires UniqueItemIds(cartOrders)
      modifies this
      ensures Valid()
      ensures modal == !old(modal) && selected == item && cartOrders == old(cartOrders)
      ensures item.None? ==> pending.NoOrder?
      ensures item.Some? ==> !pending.NoOrder? && PendingOrder().itemId == item.value.id
      ensures item.Some? ==> (pending.InCart? <==> exists k :: 0 <= k < |cartOrders| && cartOrders[k].itemId == item.value.id)
      ensures pending.Fresh? ==> item.Some? && pending.order == ClientOrder(item.value.id, item.value.title, 0)
    {
      var p := NoOrder;
      if item.Some? {
        var found := FindByItemId(cartOrders, item.value.id);
        if found.Some? {
          p := InCart(found.value);
        } else {
          p := Fresh(ClientOrder(item.value.id, item.value.title, 0));
        }
      }
      selected, pending, modal := item, p, !modal;
    }

    /**
     * `handleOrderQuantityChange`: the pending order's quantity becomes `quantity`. When
     * the pending order is the cart's entry, that entry changes at once; nothing else does.
     */
    method HandleOrderQuantityChange(quantity: int)
      requires Valid() && !pending.NoOrder?
      modifies this
      ensures Valid() && !pending.NoOrder?
      ensures PendingOrder() == old(PendingOrder()).(quantity := quantity)
      ensures pending.InCart? ==>
                && pending == old(pending)
                && cartOrders == old(cartOrders)[pending.index := old(cartOrders)[pending.index].(quantity := quantity)]
      ensures pending.Fresh? ==> old(pending).Fresh? && cartOrders == old(cartOrders)
      ensures modal == old(modal) && selected == old(selected)
    {
      match pending
      case InCart(i) =>
        var changed := cartOrders[i].(quantity := quantity);
        assert forall k :: 0 <= k < |cartOrders| ==> cartOrders[i := changed][k].itemId == cartOrders[k].itemId;
        cartOrders := cartOrders[i := changed];
      case Fresh(o) =>
        pending := Fresh(o.(quantity := quantity));
    }

    /**
     * `addToCart`: the pending order is upserted into the cart by item id (appended, or
     * the existing order's quantity overwritten), then the dialog is closed with
     * `toggle(null)`.
     */
    method AddToCart()
      requires Valid() && !pending.NoOrder?
      modifies this
      ensures Valid()
      ensures cartOrders == Added(old(cartOrders), old(PendingOrder()))
      ensures pending.NoOrder? && selected.None? && modal == !old(modal)
    {
      var o := PendingOrder();
      var found := FindByItemId(cartOrders, o.itemId);
      AddedUpserts(cartOrders, o);
      match found {
        case None =>
          cartOrders := cartOrders + [o];
        case Some(j) =>
          cartOrders := cartOrders[j := cartOrders[j].(quantity := o.quantity)];
      }
      Toggle(None);
    }

    /**
     * `canAddToCart`: what the page's stock check returns for the pending order. The page
     * binds it but never calls it; the dialog's form submits straight to `addToCart`.
     */
    function CanAddToCart(): (ok: bool)
      reads this
      requires Valid() && !pending.NoOrder?
      ensures ok ==> PendingOrder().quantity >= 0 && selected.Some?
      ensures ok ==> selected.value.count >= PendingOrder().quantity
    {
      CanAdd(cartOrders, PendingOrder(), selected)
    }
  }

  /** Adding while the pending order aliases the cart's entry leaves the cart as it was. */
  lemma AddAliasedIsNoChange(orders: seq<ClientOrder>, k: nat)
    requires UniqueItemIds(orders) && k < |orders|
    ensures Added(orders, orders[k]) == orders
  {
    FindUnique(orders, k);
  }

  /** On the page's state: with the dialog open on an item already in the cart, `canAddToCart` returns true only if stock covers twice the quantity. */
  lemma AliasedDialogNeedsDouble(h: Home)
    requires h.Valid() && h.pending.InCart?
    ensures var q := h.PendingOrder().quantity;
      h.CanAddToCart() <==> q >= 0 && h.selected.Some? && h.selected.value.count >= 2 * q
  {
    AliasedCheckDoubles(h.cartOrders, h.pending.index, h.selected);
  }
}
