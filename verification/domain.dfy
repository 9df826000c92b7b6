/**
 * The store's persistent entities (package com.store.domain): Item, Order and Cart.
 * They are mutable objects; fields the database allows to be null are `Option`s, and
 * the bean-validation annotations become `IsValid` predicates.
 */
module Domain {
  import opened Wrappers
  import JavaLang
  import EmailPattern

  /** A `LocalDate`, by its day number. */
  datatype Date = Date(epochDay: int)

  /**
   * The identity rule shared by the entities' `equals`: the same instance, or both
   * ids non-null and equal.
   */
  predicate SameEntity(sameInstance: bool, id: Option<int>, otherId: Option<int>) {
    sameInstance || (id.Some? && id == otherId)
  }

  /** Every entity's `hashCode` is this constant, so it survives the id being assigned on save. */
  const EntityHash: int := 31

  // ---------------------------------------------------------------------------
  // Item
  // ---------------------------------------------------------------------------

  class Item {
    var id: Option<int>
    var title: Option<string>
    var description: Option<string>
    var price: Option<real>
    var count: Option<int>
    var image: Option<seq<bv8>>
    var imageContentType: Option<string>

    constructor ()
      ensures id == None && title == None && description == None && price == None
      ensures count == None && image == None && imageContentType == None
    {
      id, title, description, price := None, None, None, None;
      count, image, imageContentType := None, None, None;
    }

    /**
     * The declared constraints: title and description required, with lengths (in
     * UTF-16 code units) 3..20 and 3..10240; price and count required and not below
     * zero. The image and its content type are unconstrained.
     */
    predicate IsValid()
      reads this
    {
      && title.Some? && 3 <= JavaLang.Utf16Length(title.value) <= 20
      && description.Some? && 3 <= JavaLang.Utf16Length(description.value) <= 10240
      && price.Some? && price.value >= 0.0
      && count.Some? && count.value >= 0
    }

    /** `setCount`: only the count changes. */
    method SetCount(c: Option<int>)
      modifies this
      ensures count == c
      ensures id == old(id) && title == old(title) && description == old(description) && price == old(price)
      ensures image == old(image) && imageContentType == old(imageContentType)
    {
      count := c;
    }

    /** The fluent `image(...)`: sets the image only; the image is optional, so validity is unaffected. */
    method WithImage(bytes: Option<seq<bv8>>) returns (r: Item)
      modifies this
      ensures r == this && image == bytes
      ensures id == old(id) && title == old(title) && description == old(description)
      ensures price == old(price) && count == old(count) && imageContentType == old(imageContentType)
      ensures IsValid() == old(IsValid())
    {
      image := bytes;
      r := this;
    }

    /** The fluent `imageContentType(...)`: sets the content type only; validity is unaffected. */
    method WithImageContentType(contentType: Option<string>) returns (r: Item)
      modifies this
      ensures r == this && imageContentType == contentType
      ensures id == old(id) && title == old(title) && description == old(description)
      ensures price == old(price) && count == old(count) && image == old(image)
      ensures IsValid() == old(IsValid())
    {
      imageContentType := contentType;
      r := this;
    }

    /** `equals`: the same item, or both ids non-null and equal (any other class of object is unequal). */
    predicate Equals(other: Item?)
      reads this, other
    {
      other != null && SameEntity(this == other, id, other.id)
    }

    function HashCode(): int {
      EntityHash
    }
  }

  /** Lengths in characters implied by the UTF-16 bounds of a valid item; the count is never negative. */
  lemma ValidItemBounds(it: Item)
    requires it.IsValid()
    ensures 2 <= |it.title.value| <= 20
    ensures 2 <= |it.description.value| <= 10240
    ensures it.price.value >= 0.0 && it.count.value >= 0
  {
    var t := it.title.value;
    assert |t| <= JavaLang.Utf16Length(t) <= 2 * |t|;
    var d := it.description.value;
    assert |d| <= JavaLang.Utf16Length(d) <= 2 * |d|;
  }

  /** Item equality: reflexive, symmetric, transitive; a null id equals only itself; consistent with `hashCode`. */
  lemma ItemEquality(a: Item, b: Item, c: Item)
    ensures a.Equals(a) && !a.Equals(null)
    ensures a.Equals(b) <==> b.Equals(a)
    ensures a.Equals(b) && b.Equals(c) ==> a.Equals(c)
    ensures a != b ==> (a.Equals(b) <==> a.id.Some? && a.id == b.id)
    ensures a.id == None ==> (a.Equals(b) <==> a == b)
    ensures a.Equals(b) ==> a.HashCode() == b.HashCode()
  {
  }

  // ---------------------------------------------------------------------------
  // Order
  // ---------------------------------------------------------------------------

  class Order {
    var id: Option<int>
    var quantity: Option<int>
    var cart: Cart?
    var item: Item?

    constructor ()
      ensures id == None && quantity == None && cart == null && item == null
    {
      id, quantity, cart, item := None, None, null, null;
    }

    /** Quantity required and at least 1; the cart and the item are both mandatory. */
    predicate IsValid()
      reads this
    {
      quantity.Some? && quantity.value >= 1 && cart != null && item != null
    }

    /** The fluent `quantity(...)`: sets the quantity only and returns this same order. */
    method WithQuantity(q: Option<int>) returns (r: Order)
      modifies this
      ensures r == this && quantity == q
      ensures id == old(id) && cart == old(cart) && item == old(item)
    {
      quantity := q;
      r := this;
    }

    /** The fluent `cart(...)`: sets the cart only and returns this same order. */
    method WithCart(c: Cart?) returns (r: Order)
      modifies this
      ensures r == this && cart == c
      ensures id == old(id) && quantity == old(quantity) && item == old(item)
    {
      cart := c;
      r := this;
    }

    /** The fluent `item(...)`: sets the item only and returns this same order. */
    method WithItem(i: Item?) returns (r: Order)
      modifies this
      ensures r == this && item == i
      ensures id == old(id) && quantity == old(quantity) && cart == old(cart)
    {
      item := i;
      r := this;
    }

    /** `setCart`: the back-reference only. */
    method SetCart(c: Cart?)
      modifies this
      ensures cart == c
      ensures id == old(id) && quantity == old(quantity) && item == old(item)
    {
      cart := c;
    }

    predicate Equals(other: Order?)
      reads this, other
    {
      other != null && SameEntity(this == other, id, other.id)
    }

    function HashCode(): int {
      EntityHash
    }
  }

  /** Order equality: reflexive, symmetric, transitive; a null id equals only itself; consistent with `hashCode`. */
  lemma OrderEquality(a: Order, b: Order, c: Order)
    ensures a.Equals(a) && !a.Equals(null)
    ensures a.Equals(b) <==> b.Equals(a)
    ensures a.Equals(b) && b.Equals(c) ==> a.Equals(c)
    ensures a != b ==> (a.Equals(b) <==> a.id.Some? && a.id == b.id)
    ensures a.id == None ==> (a.Equals(b) <==> a == b)
    ensures a.Equals(b) ==> a.HashCode() == b.HashCode()
  {
  }

  // ---------------------------------------------------------------------------
  // Cart
  // ---------------------------------------------------------------------------

  class Cart {
    var id: Option<int>
    var email: Option<string>
    var closedAt: Option<Date>
    var orders: set<Order>

    constructor ()
      ensures id == None && email == None && closedAt == None && orders == {}
    {
      id, email, closedAt, orders := None, None, None, {};
    }

    /** The email is required and must match the address pattern. */
    predicate IsValid()
      reads this
    {
      email.Some? && EmailPattern.Matches(email.value)
    }

    /** Whether the order set already holds an order equal to `o`: how the `HashSet` looks it up. */
    predicate HoldsEqual(o: Order)
      reads this, orders, o
    {
      exists x :: x in orders && o.Equals(x)
    }

    /** The `HashSet` invariant: no two distinct orders of the set are equal. */
    ghost predicate NoEqualOrders()
      reads this, orders
    {
      forall x, y :: x in orders && y in orders && x != y ==> !x.Equals(y)
    }

    /** `setClosedAt`: only the close date changes. */
    method SetClosedAt(d: Option<Date>)
      modifies this
      ensures closedAt == d
      ensures id == old(id) && email == old(email) && orders == old(orders)
    {
      closedAt := d;
    }

    /**
     * `addOrder`: the order joins the set unless an equal one is already there, and
     * its back-reference is set to this cart either way.
     */
    method AddOrder(o: Order) returns (r: Cart)
      modifies this, o
      ensures r == this && o.cart == this
      ensures old(HoldsEqual(o)) ==> orders == old(orders)
      ensures !old(HoldsEqual(o)) ==> orders == old(orders) + {o}
      ensures HoldsEqual(o)
      ensures old(NoEqualOrders()) ==> NoEqualOrders()
      ensures id == old(id) && email == old(email) && closedAt == old(closedAt)
      ensures o.id == old(o.id) && o.quantity == old(o.quantity) && o.item == old(o.item)
    {
      if !HoldsEqual(o) {
        orders := orders + {o};
      }
      o.SetCart(this);
      r := this;
    }

    /**
     * `removeOrder`: the order of the set that equals `o`, if any, leaves it, and the
     * back-reference of `o` is cleared either way.
     */
    method RemoveOrder(o: Order) returns (r: Cart)
      modifies this, o
      ensures r == this && o.cart == null
      ensures old(HoldsEqual(o)) ==> exists x :: x in old(orders) && o.Equals(x) && orders == old(orders) - {x}
      ensures !old(HoldsEqual(o)) ==> orders == old(orders)
      ensures old(NoEqualOrders()) ==> NoEqualOrders() && !HoldsEqual(o)
      ensures id == old(id) && email == old(email) && closedAt == old(closedAt)
      ensures o.id == old(o.id) && o.quantity == old(o.quantity) && o.item == old(o.item)
    {
      if HoldsEqual(o) {
        var x :| x in orders && o.Equals(x);
        orders := orders - {x};
      }
      o.SetCart(null);
      r := this;
    }

    predicate Equals(other: Cart?)
      reads this, other
    {
      other != null && SameEntity(this == other, id, other.id)
    }

    function HashCode(): int {
      EntityHash
    }
  }

  /** Cart equality: reflexive, symmetric, transitive; a null id equals only itself; consistent with `hashCode`. */
  lemma CartEquality(a: Cart, b: Cart, c: Cart)
    ensures a.Equals(a) && !a.Equals(null)
    ensures a.Equals(b) <==> b.Equals(a)
    ensures a.Equals(b) && b.Equals(c) ==> a.Equals(c)
    ensures a != b ==> (a.Equals(b) <==> a.id.Some? && a.id == b.id)
    ensures a.id == None ==> (a.Equals(b) <==> a == b)
    ensures a.Equals(b) ==> a.HashCode() == b.HashCode()
  {
  }

  /** A valid cart's email has exactly one '@', with a local part before it and a domain after it. */
  lemma ValidCartEmail(c: Cart)
    requires c.IsValid()
    ensures exists k ::
              && EmailPattern.SplitsAt(c.email.value, k)
              && forall j :: 0 <= j < |c.email.value| && c.email.value[j] == '@' ==> j == k
  {
    EmailPattern.AcceptedHasOneAt(c.email.value);
  }

  /** Adding an order and then removing it leaves a duplicate-free order set without it, and the order detached. */
  method AddThenRemove(c: Cart, o: Order)
    requires c.NoEqualOrders()
    modifies c, o
    ensures c.NoEqualOrders() && !c.HoldsEqual(o) && o.cart == null
  {
    var r := c.AddOrder(o);
    assert c.HoldsEqual(o);
    r := c.RemoveOrder(o);
  }
}
