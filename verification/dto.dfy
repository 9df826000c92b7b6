/**
 * The service-layer transfer objects: the three criteria classes that carry one optional
 * filter per queryable field, and the order DTO. Criteria and DTOs are mutable beans; their
 * equality and hashing are value computations over the current fields.
 */
module Dto {
  import opened Wrappers
  import opened Filters
  import JavaLang
  import Domain

  /** Filters on carts: id, email, and the ids of the cart's orders. */
  class CartCriteria {
    var id: Option<LongFilter>
    var email: Option<StringFilter>
    var orderId: Option<LongFilter>

    /** The no-argument constructor: no filter at all. */
    constructor ()
      ensures id.None? && email.None? && orderId.None?
    {
      id, email, orderId := None, None, None;
    }

    /** The copy constructor: each present filter is copied, each absent one stays absent. */
    constructor From(other: CartCriteria)
      ensures id == other.id && email == other.email && orderId == other.orderId
    {
      id, email, orderId := other.id, other.email, other.orderId;
    }

    /** `copy()`: a new criteria object equal to this one. */
    method Copy() returns (c: CartCriteria)
      ensures fresh(c) && c.Equals(this) && this.Equals(c)
      ensures c.id == id && c.email == email && c.orderId == orderId
    {
      c := new CartCriteria.From(this);
    }

    method SetId(f: Option<LongFilter>)
      modifies this
      ensures id == f && email == old(email) && orderId == old(orderId)
    {
      id := f;
    }

    method SetEmail(f: Option<StringFilter>)
      modifies this
      ensures email == f && id == old(id) && orderId == old(orderId)
    {
      email := f;
    }

    method SetOrderId(f: Option<LongFilter>)
      modifies this
      ensures orderId == f && id == old(id) && email == old(email)
    {
      orderId := f;
    }

    /** `equals`: the same object, or another criteria object with equal filters field by field. */
    predicate Equals(other: CartCriteria?)
      reads this, other
    {
      other != null && (this == other || (id == other.id && email == other.email && orderId == other.orderId))
    }

    /** `Objects.hash(id, email, orderId)`, given the hash of each filter class. */
    function HashCode(longHash: LongFilter -> int, stringHash: StringFilter -> int): (h: int)
      reads this
      ensures JavaLang.IsInt32(h)
    {
      JavaLang.ArraysHash([NullableHash(id, longHash), NullableHash(email, stringHash), NullableHash(orderId, longHash)])
    }
  }

  /** `equals` is field-wise equality, an equivalence, and agrees with `hashCode`. */
  lemma CartCriteriaEquality(a: CartCriteria, b: CartCriteria?, c: CartCriteria?,
                             longHash: LongFilter -> int, stringHash: StringFilter -> int)
    ensures a.Equals(b) <==> b != null && a.id == b.id && a.email == b.email && a.orderId == b.orderId
    ensures a.Equals(a)
    ensures a.Equals(b) ==> b.Equals(a)
    ensures a.Equals(b) && b.Equals(c) ==> a.Equals(c)
    ensures a.Equals(b) ==> a.HashCode(longHash, stringHash) == b.HashCode(longHash, stringHash)
  {
  }

  /** Filters on items: id, title, description, price and count. */
  class ItemCriteria {
    var id: Option<LongFilter>
    var title: Option<StringFilter>
    var description: Option<StringFilter>
    var price: Option<DoubleFilter>
    var count: Option<IntegerFilter>

    constructor ()
      ensures id.None? && title.None? && description.None? && price.None? && count.None?
    {
      id, title, description, price, count := None, None, None, None, None;
    }

    constructor From(other: ItemCriteria)
      ensures id == other.id && title == other.title && description == other.description
      ensures price == other.price && count == other.count
    {
      id, title, description := other.id, other.title, other.description;
      price, count := other.price, other.count;
    }

    method Copy() returns (c: ItemCriteria)
      ensures fresh(c) && c.Equals(this) && this.Equals(c)
      ensures c.id == id && c.title == title && c.description == description && c.price == price && c.count == count
    {
      c := new ItemCriteria.From(this);
    }

    method SetId(f: Option<LongFilter>)
      modifies this
      ensures id == f && unchanged(this`title, this`description, this`price, this`count)
    {
      id := f;
    }

    method SetTitle(f: Option<StringFilter>)
      modifies this
      ensures title == f && unchanged(this`id, this`description, this`price, this`count)
    {
      title := f;
    }

    method SetDescription(f: Option<StringFilter>)
      modifies this
      ensures description == f && unchanged(this`id, this`title, this`price, this`count)
    {
      description := f;
    }

    method SetPrice(f: Option<DoubleFilter>)
      modifies this
      ensures price == f && unchanged(this`id, this`title, this`description, this`count)
    {
      price := f;
    }

    method SetCount(f: Option<IntegerFilter>)
      modifies this
      ensures count == f && unchanged(this`id, this`title, this`description, this`price)
    {
      count := f;
    }

    predicate Equals(other: ItemCriteria?)
      reads this, other
    {
      other != null &&
      (this == other ||
       (id == other.id && title == other.title && description == other.description &&
        price == other.price && count == other.count))
    }

    /** `Objects.hash(id, title, description, price, count)`, given the hash of each filter class. */
    function HashCode(longHash: LongFilter -> int, stringHash: StringFilter -> int,
                      doubleHash: DoubleFilter -> int, integerHash: IntegerFilter -> int): (h: int)
      reads this
      ensures JavaLang.IsInt32(h)
    {
      JavaLang.ArraysHash([NullableHash(id, longHash), NullableHash(title, stringHash),
                           NullableHash(description, stringHash), NullableHash(price, doubleHash),
                           NullableHash(count, integerHash)])
    }
  }

  lemma ItemCriteriaEquality(a: ItemCriteria, b: ItemCriteria?, c: ItemCriteria?,
                             longHash: LongFilter -> int, stringHash: StringFilter -> int,
                             doubleHash: DoubleFilter -> int, integerHash: IntegerFilter -> int)
    ensures a.Equals(b) <==>
              b != null && a.id == b.id && a.title == b.title && a.description == b.description &&
              a.price == b.price && a.count == b.count
    ensures a.Equals(a)
    ensures a.Equals(b) ==> b.Equals(a)
    ensures a.Equals(b) && b.Equals(c) ==> a.Equals(c)
    ensures a.Equals(b) ==>
              a.HashCode(longHash, stringHash, doubleHash, integerHash) ==
              b.HashCode(longHash, stringHash, doubleHash, integerHash)
  {
  }

  /** Filters on orders: id, quantity, and the ids of the order's cart and item. */
  class OrderCriteria {
    var id: Option<LongFilter>
    var quantity: Option<IntegerFilter>
    var cartId: Option<LongFilter>
    var itemId: Option<LongFilter>

    constructor ()
      ensures id.None? && quantity.None? && cartId.None? && itemId.None?
    {
      id, quantity, cartId, itemId := None, None, None, None;
    }

    constructor From(other: OrderCriteria)
      ensures id == other.id && quantity == other.quantity && cartId == other.cartId && itemId == other.itemId
    {
      id, quantity, cartId, itemId := other.id, other.quantity, other.cartId, other.itemId;
    }

    method Copy() returns (c: OrderCriteria)
      ensures fresh(c) && c.Equals(this) && this.Equals(c)
      ensures c.id == id && c.quantity == quantity && c.cartId == cartId && c.itemId == itemId
    {
      c := new OrderCriteria.From(this);
    }

    method SetId(f: Option<LongFilter>)
      modifies this
      ensures id == f && unchanged(this`quantity, this`cartId, this`itemId)
    {
      id := f;
    }

    method SetQuantity(f: Option<IntegerFilter>)
      modifies this
      ensures quantity == f && unchanged(this`id, this`cartId, this`itemId)
    {
      quantity := f;
    }

    method SetCartId(f: Option<LongFilter>)
      modifies this
      ensures cartId == f && unchanged(this`id, this`quantity, this`itemId)
    {
      cartId := f;
    }

    method SetItemId(f: Option<LongFilter>)
      modifies this
      ensures itemId == f && unchanged(this`id, this`quantity, this`cartId)
    {
      itemId := f;
    }

    predicate Equals(other: OrderCriteria?)
      reads this, other
    {
      other != null &&
      (this == other ||
       (id == other.id && quantity == other.quantity && cartId == other.cartId && itemId == other.itemId))
    }

    /** `Objects.hash(id, quantity, cartId, itemId)`, given the hash of each filter class. */
    function HashCode(longHash: LongFilter -> int, integerHash: IntegerFilter -> int): (h: int)
      reads this
      ensures JavaLang.IsInt32(h)
    {
      JavaLang.ArraysHash([NullableHash(id, longHash), NullableHash(quantity, integerHash),
                           NullableHash(cartId, longHash), NullableHash(itemId, longHash)])
    }
  }

  lemma OrderCriteriaEquality(a: OrderCriteria, b: OrderCriteria?, c: OrderCriteria?,
                              longHash: LongFilter -> int, integerHash: IntegerFilter -> int)
    ensures a.Equals(b) <==>
              b != null && a.id == b.id && a.quantity == b.quantity && a.cartId == b.cartId && a.itemId == b.itemId
    ensures a.Equals(a)
    ensures a.Equals(b) ==> b.Equals(a)
    ensures a.Equals(b) && b.Equals(c) ==> a.Equals(c)
    ensures a.Equals(b) ==> a.HashCode(longHash, integerHash) == b.HashCode(longHash, integerHash)
  {
  }

  /** The id an order's many-to-one reference contributes through a LEFT JOIN: null when there is no target. */
  function CartIdOf(o: Domain.Order): Option<int>
    reads o, o.cart
  {
    if o.cart == null then None else o.cart.id
  }

  function ItemIdOf(o: Domain.Order): Option<int>
    reads o, o.item
  {
    if o.item == null then None else o.item.id
  }

  /**
   * The condition an order criteria object stands for, following the generated pattern of the
   * cart and item query services: every present filter holds of its column, ids compared with
   * equals / in / specified, quantity also with its bounds; a null criteria object imposes nothing.
   */
  predicate OrderMatches(c: OrderCriteria?, o: Domain.Order)
    reads c, o, o.cart, o.item
  {
    c == null ||
    (&& (c.id.None? || Holds(c.id.value.base, o.id))
     && (c.quantity.None? || HoldsInRange(c.quantity.value, o.quantity))
     && (c.cartId.None? || Holds(c.cartId.value.base, CartIdOf(o)))
     && (c.itemId.None? || Holds(c.itemId.value.base, ItemIdOf(o))))
  }

  /** `cartId.equals=x` selects exactly the orders whose cart has id x; `itemId.equals=x` likewise for items. */
  lemma CartIdAndItemIdFilters(c: OrderCriteria, o: Domain.Order, x: int)
    requires c.id.None? && c.quantity.None?
    ensures c.cartId == Some(RangeFilter(EqualsFilter(x), None, None)) && c.itemId.None? ==>
              (OrderMatches(c, o) <==> o.cart != null && o.cart.id == Some(x))
    ensures c.itemId == Some(RangeFilter(EqualsFilter(x), None, None)) && c.cartId.None? ==>
              (OrderMatches(c, o) <==> o.item != null && o.item.id == Some(x))
  {
  }

  /** A quantity bound filter: `greaterOrEqualThan` is inclusive and `lessThan` is strict; a null quantity fails both. */
  lemma QuantityBounds(c: OrderCriteria, o: Domain.Order, lo: Option<int>, hi: Option<int>)
    requires c.id.None? && c.cartId.None? && c.itemId.None?
    requires c.quantity == Some(BoundsFilter(lo, hi))
    ensures OrderMatches(c, o) <==>
              (lo.None? || (o.quantity.Some? && lo.value <= o.quantity.value)) &&
              (hi.None? || (o.quantity.Some? && o.quantity.value < hi.value))
  {
  }

  /** The order DTO: ids of the linked cart and item, and the item's title for display. */
  class OrderDTO {
    var id: Option<int>
    var quantity: Option<int>
    var cartId: Option<int>
    var itemId: Option<int>
    var itemTitle: Option<string>

    constructor ()
      ensures id.None? && quantity.None? && cartId.None? && itemId.None? && itemTitle.None?
    {
      id, quantity, cartId, itemId, itemTitle := None, None, None, None, None;
    }

    /** `@NotNull @Min(1)` on quantity. */
    predicate IsValid()
      reads this
    {
      quantity.Some? && quantity.value >= 1
    }

    method SetId(v: Option<int>)
      modifies this
      ensures id == v && unchanged(this`quantity, this`cartId, this`itemId, this`itemTitle)
    {
      id := v;
    }

    method SetQuantity(v: Option<int>)
      modifies this
      ensures quantity == v && unchanged(this`id, this`cartId, this`itemId, this`itemTitle)
    {
      quantity := v;
    }

    method SetCartId(v: Option<int>)
      modifies this
      ensures cartId == v && unchanged(this`id, this`quantity, this`itemId, this`itemTitle)
    {
      cartId := v;
    }

    method SetItemId(v: Option<int>)
      modifies this
      ensures itemId == v && unchanged(this`id, this`quantity, this`cartId, this`itemTitle)
    {
      itemId := v;
    }

    method SetItemTitle(v: Option<string>)
      modifies this
      ensures itemTitle == v && unchanged(this`id, this`quantity, this`cartId, this`itemId)
    {
      itemTitle := v;
    }

    /** `equals`: the same object, or both ids non-null and equal; the other fields play no part. */
    predicate Equals(other: OrderDTO?)
      reads this, other
    {
      other != null && Domain.SameEntity(this == other, id, other.id)
    }

    /** `Objects.hashCode(getId())`: 0 for a null id, otherwise `Long.hashCode` of the id. */
    function HashCode(): (h: int)
      reads this
      requires id.None? || JavaLang.IsInt64(id.value)
      ensures JavaLang.IsInt32(h)
      ensures id.None? ==> h == 0
    {
      if id.None? then 0 else JavaLang.LongHash(id.value)
    }
  }

  /** DTO equality: reflexive, never with a null id unless the same object, by id otherwise, and consistent with `hashCode`. */
  lemma OrderDTOEquality(a: OrderDTO, b: OrderDTO)
    requires a.id.None? || JavaLang.IsInt64(a.id.value)
    requires b.id.None? || JavaLang.IsInt64(b.id.value)
    ensures a.Equals(a)
    ensures a != b && (a.id.None? || b.id.None?) ==> !a.Equals(b)
    ensures a.id.Some? && a.id == b.id ==> a.Equals(b)
    ensures a.Equals(b) <==> b.Equals(a)
    ensures a.Equals(b) ==> a.HashCode() == b.HashCode()
  {
  }
}
