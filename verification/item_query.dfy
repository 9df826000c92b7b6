/**
 * The read side of the item service: an `ItemCriteria` becomes a conjunction of one
 * condition per present filter; list, page and count share it.
 */
module ItemQuery {
  import opened Wrappers
  import opened Filters
  import opened Domain
  import Dto
  import Paging

  /** One conjunct of an item specification, made from one present filter. */
  datatype Condition =
    | IdIs(LongFilter)
    | TitleIs(StringFilter)
    | DescriptionIs(StringFilter)
    | PriceIn(DoubleFilter)
    | CountIn(IntegerFilter)

  /** `createSpecification`: the empty conjunction, extended by one condition per present filter in field order. */
  function CreateSpecification(criteria: Dto.ItemCriteria?): (spec: seq<Condition>)
    reads criteria
    ensures criteria == null ==> spec == []
    ensures |spec| <= 5
  {
    if criteria == null then []
    else
      var s0: seq<Condition> := [];
      var s1 := if criteria.id.Some? then s0 + [IdIs(criteria.id.value)] else s0;
      var s2 := if criteria.title.Some? then s1 + [TitleIs(criteria.title.value)] else s1;
      var s3 := if criteria.description.Some? then s2 + [DescriptionIs(criteria.description.value)] else s2;
      var s4 := if criteria.price.Some? then s3 + [PriceIn(criteria.price.value)] else s3;
      var s5 := if criteria.count.Some? then s4 + [CountIn(criteria.count.value)] else s4;
      s5
  }

  /** Id with a plain filter, title and description with string filters, price and count with range filters. */
  predicate ConditionHolds(c: Condition, item: Item)
    reads item
  {
    match c
    case IdIs(f) => Holds(f.base, item.id)
    case TitleIs(f) => Holds(f, item.title)
    case DescriptionIs(f) => Holds(f, item.description)
    case PriceIn(f) => HoldsInRealRange(f, item.price)
    case CountIn(f) => HoldsInRange(f, item.count)
  }

  predicate Satisfies(spec: seq<Condition>, item: Item)
    reads item
  {
    if spec == [] then true
    else Satisfies(spec[..|spec| - 1], item) && ConditionHolds(spec[|spec| - 1], item)
  }

  /** The fold of `and`s holds exactly when every conjunct does. */
  lemma {:induction false} SatisfiesEvery(spec: seq<Condition>, item: Item)
    ensures Satisfies(spec, item) <==> forall i :: 0 <= i < |spec| ==> ConditionHolds(spec[i], item)
  {
    if spec != [] {
      var init := spec[..|spec| - 1];
      SatisfiesEvery(init, item);
      assert forall i :: 0 <= i < |init| ==> init[i] == spec[i];
    }
  }

  predicate Matches(criteria: Dto.ItemCriteria?, item: Item)
    reads criteria, item
  {
    Satisfies(CreateSpecification(criteria), item)
  }

  /** Adding one conjunct with `and`. */
  lemma SatisfiesAnd(spec: seq<Condition>, c: Condition, item: Item)
    ensures Satisfies(spec + [c], item) <==> Satisfies(spec, item) && ConditionHolds(c, item)
  {
    assert (spec + [c])[..|spec|] == spec;
  }

  /** An item matches iff it satisfies each present filter; absent filters, and a null criteria object, impose nothing. */
  lemma MatchesEveryPresentFilter(criteria: Dto.ItemCriteria?, item: Item)
    ensures Matches(criteria, item) <==>
              criteria == null ||
              (&& (criteria.id.None? || Holds(criteria.id.value.base, item.id))
               && (criteria.title.None? || Holds(criteria.title.value, item.title))
               && (criteria.description.None? || Holds(criteria.description.value, item.description))
               && (criteria.price.None? || HoldsInRealRange(criteria.price.value, item.price))
               && (criteria.count.None? || HoldsInRange(criteria.count.value, item.count)))
  {
    if criteria != null {
      var s0: seq<Condition> := [];
      var s1 := if criteria.id.Some? then s0 + [IdIs(criteria.id.value)] else s0;
      var s2 := if criteria.title.Some? then s1 + [TitleIs(criteria.title.value)] else s1;
      var s3 := if criteria.description.Some? then s2 + [DescriptionIs(criteria.description.value)] else s2;
      var s4 := if criteria.price.Some? then s3 + [PriceIn(criteria.price.value)] else s3;
      var s5 := if criteria.count.Some? then s4 + [CountIn(criteria.count.value)] else s4;
      assert CreateSpecification(criteria) == s5;
      if criteria.id.Some? { SatisfiesAnd(s0, IdIs(criteria.id.value), item); }
      if criteria.title.Some? { SatisfiesAnd(s1, TitleIs(criteria.title.value), item); }
      if criteria.description.Some? { SatisfiesAnd(s2, DescriptionIs(criteria.description.value), item); }
      if criteria.price.Some? { SatisfiesAnd(s3, PriceIn(criteria.price.value), item); }
      if criteria.count.Some? { SatisfiesAnd(s4, CountIn(criteria.count.value), item); }
    }
  }

  /** `itemRepository.findAll(specification)`: the matching rows, in table order. */
  function FindAll(spec: seq<Condition>, items: seq<Item>): (r: seq<Item>)
    reads items
    ensures forall x :: x in r ==> x in items
    ensures forall x :: x in items ==> (x in r <==> Satisfies(spec, x))
    ensures |r| <= |items|
  {
    if items == [] then []
    else
      var rest := FindAll(spec, items[1..]);
      if Satisfies(spec, items[0]) then [items[0]] + rest else rest
  }

  /** `itemRepository.count(specification)`: the number of matching rows. */
  function Count(spec: seq<Condition>, items: seq<Item>): (n: nat)
    reads items
    ensures n <= |items|
  {
    if items == [] then 0
    else (if Satisfies(spec, items[0]) then 1 else 0) + Count(spec, items[1..])
  }

  lemma {:induction false} CountIsSizeOfFindAll(spec: seq<Condition>, items: seq<Item>)
    ensures Count(spec, items) == |FindAll(spec, items)|
  {
    if items != [] {
      CountIsSizeOfFindAll(spec, items[1..]);
    }
  }

  function FindByCriteria(criteria: Dto.ItemCriteria?, items: seq<Item>): (r: seq<Item>)
    reads criteria, items
    ensures forall x :: x in r ==> x in items
    ensures forall x :: x in items ==> (x in r <==> Matches(criteria, x))
  {
    FindAll(CreateSpecification(criteria), items)
  }

  function CountByCriteria(criteria: Dto.ItemCriteria?, items: seq<Item>): (n: nat)
    reads criteria, items
    ensures n == |FindByCriteria(criteria, items)|
  {
    CountIsSizeOfFindAll(CreateSpecification(criteria), items);
    Count(CreateSpecification(criteria), items)
  }

  function FindPageByCriteria(criteria: Dto.ItemCriteria?, items: seq<Item>, page: Paging.Pageable): (r: Paging.Page<Item>)
    requires page.size > 0
    reads criteria, items
    ensures r.totalElements == CountByCriteria(criteria, items)
    ensures forall x :: x in r.content ==> x in items && Matches(criteria, x)
  {
    Paging.PageOf(FindByCriteria(criteria, items), page)
  }

  lemma {:induction false} FindAllWithoutConditions(items: seq<Item>)
    ensures FindAll([], items) == items
  {
    if items != [] {
      FindAllWithoutConditions(items[1..]);
    }
  }

  /** A null criteria object finds every item, in table order. */
  lemma NullCriteriaFindsAll(items: seq<Item>)
    ensures FindByCriteria(null, items) == items
    ensures CountByCriteria(null, items) == |items|
  {
    FindAllWithoutConditions(items);
  }

  /** `b` carries every filter that `a` carries, with the same value. */
  predicate Extends(b: Dto.ItemCriteria, a: Dto.ItemCriteria)
    reads a, b
  {
    && (a.id.Some? ==> b.id == a.id)
    && (a.title.Some? ==> b.title == a.title)
    && (a.description.Some? ==> b.description == a.description)
    && (a.price.Some? ==> b.price == a.price)
    && (a.count.Some? ==> b.count == a.count)
  }

  lemma {:induction false} CountMonotone(weak: seq<Condition>, strong: seq<Condition>, items: seq<Item>)
    requires forall x :: x in items && Satisfies(strong, x) ==> Satisfies(weak, x)
    ensures Count(strong, items) <= Count(weak, items)
  {
    if items != [] {
      CountMonotone(weak, strong, items[1..]);
    }
  }

  /** Adding filters keeps or shrinks the result, and its count. */
  lemma AddingFiltersNarrows(a: Dto.ItemCriteria, b: Dto.ItemCriteria, items: seq<Item>)
    requires Extends(b, a)
    ensures forall x :: x in FindByCriteria(b, items) ==> x in FindByCriteria(a, items)
    ensures CountByCriteria(b, items) <= CountByCriteria(a, items)
  {
    forall x | x in items && Matches(b, x)
      ensures Matches(a, x)
    {
      MatchesEveryPresentFilter(a, x);
      MatchesEveryPresentFilter(b, x);
    }
    CountMonotone(CreateSpecification(a), CreateSpecification(b), items);
    CountIsSizeOfFindAll(CreateSpecification(a), items);
    CountIsSizeOfFindAll(CreateSpecification(b), items);
  }

  /** The count filter on its own with bounds: `greaterOrEqualThan` inclusive, `lessThan` strict, a null count fails. */
  lemma CountBounds(criteria: Dto.ItemCriteria, item: Item, lo: Option<int>, hi: Option<int>)
    requires criteria.id.None? && criteria.title.None? && criteria.description.None? && criteria.price.None?
    requires criteria.count == Some(BoundsFilter(lo, hi))
    ensures Matches(criteria, item) <==>
              (lo.None? || (item.count.Some? && lo.value <= item.count.value)) &&
              (hi.None? || (item.count.Some? && item.count.value < hi.value))
  {
    MatchesEveryPresentFilter(criteria, item);
  }
}
