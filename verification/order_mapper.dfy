/**
 * The order mapper: projections between the `Order` entity and its DTO. Linked carts
 * and items travel as ids; going back, each id becomes a reference object that carries
 * only that id.
 */
module OrderMapper {
  import opened Wrappers
  import opened Domain
  import Dto

  /** `fromId`: null for a null id, otherwise a new order carrying the id and nothing else. */
  method FromId(id: Option<int>) returns (o: Order?)
    ensures id.None? <==> o == null
    ensures o != null ==> fresh(o) && o.id == id && o.quantity.None? && o.cart == null && o.item == null
  {
    if id.None? {
      return null;
    }
    o := new Order();
    o.id := id;
  }

  /** The cart mapper's `fromId`, through which an order DTO's cart id becomes a cart. */
  method CartFromId(id: Option<int>) returns (c: Cart?)
    ensures id.None? <==> c == null
    ensures c != null ==> fresh(c) && c.id == id && c.email.None? && c.closedAt.None? && c.orders == {}
  {
    if id.None? {
      return null;
    }
    c := new Cart();
    c.id := id;
  }

  /** The item mapper's `fromId`, through which an order DTO's item id becomes an item. */
  method ItemFromId(id: Option<int>) returns (i: Item?)
    ensures id.None? <==> i == null
    ensures i != null ==> fresh(i) && i.id == id && i.title.None? && i.description.None?
    ensures i != null ==> i.price.None? && i.count.None? && i.image.None? && i.imageContentType.None?
  {
    if id.None? {
      return null;
    }
    i := new Item();
    i.id := id;
  }

  /** `toDto`: id and quantity copied, `cart.id`, `item.id` and `item.title` flattened, null-safely. */
  method ToDto(order: Order?) returns (d: Dto.OrderDTO?)
    ensures order == null <==> d == null
    ensures d != null ==> fresh(d)
    ensures d != null ==> d.id == order.id && d.quantity == order.quantity
    ensures d != null ==> d.cartId == Dto.CartIdOf(order) && d.itemId == Dto.ItemIdOf(order)
    ensures d != null ==> d.itemTitle == (if order.item == null then None else order.item.title)
    ensures d != null ==> (d.IsValid() <==> order.quantity.Some? && order.quantity.value >= 1)
    ensures d != null && order.IsValid() ==> d.IsValid()
  {
    if order == null {
      return null;
    }
    d := new Dto.OrderDTO();
    d.id := order.id;
    d.quantity := order.quantity;
    d.cartId := Dto.CartIdOf(order);
    d.itemId := Dto.ItemIdOf(order);
    d.itemTitle := if order.item == null then None else order.item.title;
  }

  /** `toEntity`: id and quantity copied; the cart and the item are reference objects made from the ids; the title is dropped. */
  method ToEntity(d: Dto.OrderDTO?) returns (o: Order?)
    ensures d == null <==> o == null
    ensures o != null ==> fresh(o) && o.id == d.id && o.quantity == d.quantity
    ensures o != null ==> Dto.CartIdOf(o) == d.cartId && Dto.ItemIdOf(o) == d.itemId
    ensures o != null && o.cart != null ==> fresh(o.cart) && o.cart.orders == {}
    ensures o != null && o.item != null ==> fresh(o.item) && o.item.title.None?
    ensures o != null ==> (o.IsValid() <==> d.IsValid() && d.cartId.Some? && d.itemId.Some?)
  {
    if d == null {
      return null;
    }
    var c := CartFromId(d.cartId);
    var i := ItemFromId(d.itemId);
    o := new Order();
    o.id := d.id;
    o.quantity := d.quantity;
    o.cart := c;
    o.item := i;
  }

  /**
   * `toDto(toEntity(d))`: id, quantity, cart id and item id survive the round trip; the
   * item title does not, since the rebuilt item carries only its id.
   */
  method RoundTrip(d: Dto.OrderDTO) returns (r: Dto.OrderDTO)
    ensures r.id == d.id && r.quantity == d.quantity && r.cartId == d.cartId && r.itemId == d.itemId
    ensures r.itemTitle.None?
    ensures r.IsValid() <==> d.IsValid()
  {
    var o := ToEntity(d);
    r := ToDto(o);
  }
}
