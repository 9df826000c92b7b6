/**
 * The JHipster filter values that criteria objects carry, and what each one requires of
 * a column value, following how the JHipster `QueryService` turns a filter into a query
 * condition. A filter is an immutable value here: its `copy()` is the same value.
 */
module Filters {
  import opened Wrappers

  /**
   * `Filter<T>`: `equals`, `in` (here `members`) and `specified`; an operator that was
   * not given is absent.
   */
  datatype Filter<T> = Filter(equals: Option<T>, members: Option<seq<T>>, specified: Option<bool>)

  /** `RangeFilter<T>`: a filter plus the bounds `greaterOrEqualThan` (inclusive) and `lessThan` (strict). */
  datatype RangeFilter<T> = RangeFilter(base: Filter<T>, greaterOrEqualThan: Option<T>, lessThan: Option<T>)

  type StringFilter = Filter<string>
  type LongFilter = RangeFilter<int>
  type IntegerFilter = RangeFilter<int>
  type DoubleFilter = RangeFilter<real>

  /** The filter `field.equals=v`. */
  function EqualsFilter<T>(v: T): Filter<T> {
    Filter(Some(v), None, None)
  }

  /** The filter `field.in=v1,v2,...`. */
  function InFilter<T>(vs: seq<T>): Filter<T> {
    Filter(None, Some(vs), None)
  }

  /** The filter `field.specified=b`. */
  function SpecifiedFilter<T>(b: bool): Filter<T> {
    Filter(None, None, Some(b))
  }

  /** The range filter `field.greaterOrEqualThan=lo&field.lessThan=hi`, either bound optional. */
  function BoundsFilter<T>(lo: Option<T>, hi: Option<T>): RangeFilter<T> {
    RangeFilter(Filter(None, None, None), lo, hi)
  }

  /**
   * The condition `buildSpecification` makes of a filter on a nullable column: the
   * first operator present among equals, in and specified decides; a filter without
   * any imposes nothing. SQL comparisons with null are never true.
   */
  predicate Holds<T(==)>(f: Filter<T>, v: Option<T>) {
    if f.equals.Some? then v == f.equals
    else if f.members.Some? then v.Some? && v.value in f.members.value
    else if f.specified.Some? then v.Some? == f.specified.value
    else true
  }

  /** The bound part of `buildRangeSpecification`, over integers. */
  predicate WithinBounds(f: RangeFilter<int>, v: Option<int>) {
    && (f.base.specified.None? || v.Some? == f.base.specified.value)
    && (f.greaterOrEqualThan.None? || (v.Some? && v.value >= f.greaterOrEqualThan.value))
    && (f.lessThan.None? || (v.Some? && v.value < f.lessThan.value))
  }

  /**
   * `buildRangeSpecification` over an integer column: equals, else in, decide alone as
   * for a plain filter; otherwise specified and the bounds must all hold.
   */
  predicate HoldsInRange(f: RangeFilter<int>, v: Option<int>) {
    if f.base.equals.Some? || f.base.members.Some? then Holds(f.base, v) else WithinBounds(f, v)
  }

  /** The bound part of `buildRangeSpecification`, over a floating-point column read as a real. */
  predicate WithinRealBounds(f: RangeFilter<real>, v: Option<real>) {
    && (f.base.specified.None? || v.Some? == f.base.specified.value)
    && (f.greaterOrEqualThan.None? || (v.Some? && v.value >= f.greaterOrEqualThan.value))
    && (f.lessThan.None? || (v.Some? && v.value < f.lessThan.value))
  }

  predicate HoldsInRealRange(f: RangeFilter<real>, v: Option<real>) {
    if f.base.equals.Some? || f.base.members.Some? then Holds(f.base, v) else WithinRealBounds(f, v)
  }

  /**
   * A filter through a LEFT JOIN to a collection: the row matches when one of the
   * joined values satisfies it, and an empty collection joins as a single null.
   */
  predicate HoldsForSome<T(==)>(f: Filter<T>, vs: set<Option<T>>) {
    if vs == {} then Holds(f, None) else exists v :: v in vs && Holds(f, v)
  }

  /** `Objects.hashCode` of a nullable filter field, given the filter class's own hash. */
  function NullableHash<F>(f: Option<F>, hash: F -> int): int {
    match f
    case None => 0
    case Some(x) => hash(x)
  }

  /** The operators the tests exercise, on a present value: equals, in, specified, and the two bounds. */
  lemma OperatorMeanings(x: int, xs: seq<int>, lo: int, hi: int, v: int)
    ensures Holds(EqualsFilter(x), Some(v)) <==> v == x
    ensures Holds(InFilter(xs), Some(v)) <==> v in xs
    ensures Holds(SpecifiedFilter<int>(true), Some(v)) && !Holds(SpecifiedFilter<int>(false), Some(v))
    ensures HoldsInRange(BoundsFilter(Some(lo), None), Some(v)) <==> lo <= v
    ensures HoldsInRange(BoundsFilter(None, Some(hi)), Some(v)) <==> v < hi
  {
  }

  /** On a null column only `specified=false` holds among the operators. */
  lemma NullMeanings(x: int, xs: seq<int>, lo: int, hi: int)
    ensures !Holds(EqualsFilter(x), None) && !Holds(InFilter(xs), None)
    ensures Holds(SpecifiedFilter<int>(false), None) && !Holds(SpecifiedFilter<int>(true), None)
    ensures !HoldsInRange(BoundsFilter(Some(lo), None), None) && !HoldsInRange(BoundsFilter(None, Some(hi)), None)
  {
  }
}
