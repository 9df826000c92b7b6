/**
 * The read side of the cart service: a `CartCriteria` becomes a JPA specification, a
 * conjunction of one condition per present filter, and the list, the page and the count
 * are all taken with that one specification over the cart table.
 */
module CartQuery {
  import opened Wrappers
  import opened Filters
  import opened Domain
  import Dto
  import Paging

  /** One conjunct of a cart specification, made from one present filter. */
  datatype Condition =
    | IdIs(LongFilter)
    | EmailIs(StringFilter)
    | SomeOrderIdIs(LongFilter)

  /**
   * `createSpecification`: start from `where(null)`, the empty conjunction, and `and` on
   * a condition for each filter that is present, in field order.
   */
  function CreateSpecification(criteria: Dto.CartCriteria?): (spec: seq<Condition>)
    reads criteria
    ensures criteria == null ==> spec == []
    ensures |spec| <= 3
  {
    if criteria == null then []
    else
      var s0: seq<Condition> := [];
      var s1 := if criteria.id.Some? then s0 + [IdIs(criteria.id.value)] else s0;
      var s2 := if criteria.email.Some? then s1 + [EmailIs(criteria.email.value)] else s1;
      var s3 := if criteria.orderId.Some? then s2 + [SomeOrderIdIs(criteria.orderId.value)] else s2;
      s3
  }

  /** The ids a cart contributes through `LEFT JOIN orders`. */
  function OrderIds(cart: Cart): set<Option<int>>
    reads cart, cart.orders
  {
    set o | o in cart.orders :: o.id
  }

  /** The orders of every cart in a table: what a query over the table may read. */
  function OrdersOf(carts: seq<Cart>): set<Order>
    reads carts
  {
    set c, o | c in carts && o in c.orders :: o
  }

  /** The id filter is a plain filter (no bounds), the email filter a string filter, the order ids an existential one. */
  predicate ConditionHolds(c: Condition, cart: Cart)
    reads cart, cart.orders
  {
    match c
    case IdIs(f) => Holds(f.base, cart.id)
    case EmailIs(f) => Holds(f, cart.email)
    case SomeOrderIdIs(f) => HoldsForSome(f.base, OrderIds(cart))
  }

  /** A specification built by successive `and`s holds when its prefix and its last conjunct hold. */
  predicate Satisfies(spec: seq<Condition>, cart: Cart)
    reads cart, cart.orders
  {
    if spec == [] then true
    else Satisfies(spec[..|spec| - 1], cart) && ConditionHolds(spec[|spec| - 1], cart)
  }

  /** The fold of `and`s holds exactly when every conjunct does. */
  lemma {:induction false} SatisfiesEvery(spec: seq<Condition>, cart: Cart)
    ensures Satisfies(spec, cart) <==> forall i :: 0 <= i < |spec| ==> ConditionHolds(spec[i], cart)
  {
    if spec != [] {
      var init := spec[..|spec| - 1];
      SatisfiesEvery(init, cart);
      assert forall i :: 0 <= i < |init| ==> init[i] == spec[i];
    }
  }

  predicate Matches(criteria: Dto.CartCriteria?, cart: Cart)
    reads criteria, cart, cart.orders
  {
    Satisfies(CreateSpecification(criteria), cart)
  }

  /** Adding one conjunct with `and`. */
  lemma SatisfiesAnd(spec: seq<Condition>, c: Condition, cart: Cart)
    ensures Satisfies(spec + [c], cart) <==> Satisfies(spec, cart) && ConditionHolds(c, cart)
  {
    assert (spec + [c])[..|spec|] == spec;
  }

  /** A cart matches iff it satisfies each present filter; absent filters, and a null criteria object, impose nothing. */
  lemma MatchesEveryPresentFilter(criteria: Dto.CartCriteria?, cart: Cart)
    ensures Matches(criteria, cart) <==>
              criteria == null ||
              (&& (criteria.id.None? || Holds(criteria.id.value.base, cart.id))
               && (criteria.email.None? || Holds(criteria.email.value, cart.email))
               && (criteria.orderId.None? || HoldsForSome(criteria.orderId.value.base, OrderIds(cart))))
  {
    if criteria != null {
      var s0: seq<Condition> := [];
      var s1 := if criteria.id.Some? then s0 + [IdIs(criteria.id.value)] else s0;
      var s2 := if criteria.email.Some? then s1 + [EmailIs(criteria.email.value)] else s1;
      var s3 := if criteria.orderId.Some? then s2 + [SomeOrderIdIs(criteria.orderId.value)] else s2;
      assert CreateSpecification(criteria) == s3;
      if criteria.id.Some? { SatisfiesAnd(s0, IdIs(criteria.id.value), cart); }
      if criteria.email.Some? { SatisfiesAnd(s1, EmailIs(criteria.email.value), cart); }
      if criteria.orderId.Some? { SatisfiesAnd(s2, SomeOrderIdIs(criteria.orderId.value), cart); }
    }
  }

  /** `cartRepository.findAll(specification)`: the matching rows, in table order. */
  function FindAll(spec: seq<Condition>, carts: seq<Cart>): (r: seq<Cart>)
    reads carts, OrdersOf(carts)
    ensures forall x :: x in r ==> x in carts
    ensures forall x :: x in carts ==> (x in r <==> Satisfies(spec, x))
    ensures |r| <= |carts|
  {
    if carts == [] then []
    else
      var rest := FindAll(spec, carts[1..]);
      if Satisfies(spec, carts[0]) then [carts[0]] + rest else rest
  }

  /** `cartRepository.count(specification)`: the number of matching rows. */
  function Count(spec: seq<Condition>, carts: seq<Cart>): (n: nat)
    reads carts, OrdersOf(carts)
    ensures n <= |carts|
  {
    if carts == [] then 0
    else (if Satisfies(spec, carts[0]) then 1 else 0) + Count(spec, carts[1..])
  }

  lemma {:induction false} CountIsSizeOfFindAll(spec: seq<Condition>, carts: seq<Cart>)
    ensures Count(spec, carts) == |FindAll(spec, carts)|
  {
    if carts != [] {
      CountIsSizeOfFindAll(spec, carts[1..]);
    }
  }

  /** The list endpoint: exactly the carts of the table that match. */
  function FindByCriteria(criteria: Dto.CartCriteria?, carts: seq<Cart>): (r: seq<Cart>)
    reads criteria, carts, OrdersOf(carts)
    ensures forall x :: x in r ==> x in carts
    ensures forall x :: x in carts ==> (x in r <==> Matches(criteria, x))
  {
    FindAll(CreateSpecification(criteria), carts)
  }

  /** The count endpoint: the same predicate, so the count is the length of the list. */
  function CountByCriteria(criteria: Dto.CartCriteria?, carts: seq<Cart>): (n: nat)
    reads criteria, carts, OrdersOf(carts)
    ensures n == |FindByCriteria(criteria, carts)|
  {
    CountIsSizeOfFindAll(CreateSpecification(criteria), carts);
    Count(CreateSpecification(criteria), carts)
  }

  /** The paged endpoint: a slice of the same list, whose total is the count. */
  function FindPageByCriteria(criteria: Dto.CartCriteria?, carts: seq<Cart>, page: Paging.Pageable): (r: Paging.Page<Cart>)
    requires page.size > 0
    reads criteria, carts, OrdersOf(carts)
    ensures r.totalElements == CountByCriteria(criteria, carts)
    ensures forall x :: x in r.content ==> x in carts && Matches(criteria, x)
  {
    Paging.PageOf(FindByCriteria(criteria, carts), page)
  }

  lemma {:induction false} FindAllWithoutConditions(carts: seq<Cart>)
    ensures FindAll([], carts) == carts
  {
    if carts != [] {
      FindAllWithoutConditions(carts[1..]);
    }
  }

  /** A null criteria object finds every cart, in table order. */
  lemma NullCriteriaFindsAll(carts: seq<Cart>)
    ensures FindByCriteria(null, carts) == carts
    ensures CountByCriteria(null, carts) == |carts|
  {
    FindAllWithoutConditions(carts);
  }

  /** `b` carries every filter that `a` carries, with the same value. */
  predicate Extends(b: Dto.CartCriteria, a: Dto.CartCriteria)
    reads a, b
  {
    && (a.id.Some? ==> b.id == a.id)
    && (a.email.Some? ==> b.email == a.email)
    && (a.orderId.Some? ==> b.orderId == a.orderId)
  }

  lemma {:induction false} CountMonotone(weak: seq<Condition>, strong: seq<Condition>, carts: seq<Cart>)
    requires forall x :: x in carts && Satisfies(strong, x) ==> Satisfies(weak, x)
    ensures Count(strong, carts) <= Count(weak, carts)
  {
    if carts != [] {
      CountMonotone(weak, strong, carts[1..]);
    }
  }

  /** Filters are combined with AND: adding filters keeps or shrinks the result, and its count. */
  lemma AddingFiltersNarrows(a: Dto.CartCriteria, b: Dto.CartCriteria, carts: seq<Cart>)
    requires Extends(b, a)
    ensures forall x :: x in FindByCriteria(b, carts) ==> x in FindByCriteria(a, carts)
    ensures CountByCriteria(b, carts) <= CountByCriteria(a, carts)
  {
    forall x | x in carts && Matches(b, x)
      ensures Matches(a, x)
    {
      MatchesEveryPresentFilter(a, x);
      MatchesEveryPresentFilter(b, x);
    }
    CountMonotone(CreateSpecification(a), CreateSpecification(b), carts);
    CountIsSizeOfFindAll(CreateSpecification(a), carts);
    CountIsSizeOfFindAll(CreateSpecification(b), carts);
  }

  /** The email filter on its own: `equals`, `in` and `specified` as the resource tests use them. */
  lemma EmailFilterOperators(criteria: Dto.CartCriteria, cart: Cart, x: string, xs: seq<string>)
    requires criteria.id.None? && criteria.orderId.None?
    ensures criteria.email == Some(EqualsFilter(x)) ==> (Matches(criteria, cart) <==> cart.email == Some(x))
    ensures criteria.email == Some(InFilter(xs)) ==> (Matches(criteria, cart) <==> cart.email.Some? && cart.email.value in xs)
    ensures criteria.email == Some(SpecifiedFilter(true)) ==> (Matches(criteria, cart) <==> cart.email.Some?)
    ensures criteria.email == Some(SpecifiedFilter(false)) ==> (Matches(criteria, cart) <==> cart.email.None?)
  {
    MatchesEveryPresentFilter(criteria, cart);
  }

  /** `orderId.equals=x` finds exactly the carts holding an order with id x. */
  lemma OrderIdFilter(criteria: Dto.CartCriteria, cart: Cart, x: int)
    requires criteria.id.None? && criteria.email.None?
    requires criteria.orderId == Some(RangeFilter(EqualsFilter(x), None, None))
    ensures Matches(criteria, cart) <==> exists o :: o in cart.orders && o.id == Some(x)
  {
    MatchesEveryPresentFilter(criteria, cart);
    if exists o :: o in cart.orders && o.id == Some(x) {
      var o :| o in cart.orders && o.id == Some(x);
      assert o.id in OrderIds(cart);
    }
  }
}
