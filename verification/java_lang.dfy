/**
 * The few pieces of the Java platform whose exact arithmetic the store relies on:
 * 32-bit `int` wrap-around, `String.length()` in UTF-16 code units, and the hash
 * functions `Arrays.hashCode` / `Objects.hash` and `Long.hashCode`.
 */
module JavaLang {

  const TwoTo31: int := 0x8000_0000
  const TwoTo32: int := 0x1_0000_0000
  const TwoTo63: int := 0x8000_0000_0000_0000
  const TwoTo64: int := 0x1_0000_0000_0000_0000

  /** Values of a Java `int`. */
  predicate IsInt32(x: int) {
    -TwoTo31 <= x < TwoTo31
  }

  /** Values of a Java `long`. */
  predicate IsInt64(x: int) {
    -TwoTo63 <= x < TwoTo63
  }

  /**
   * The Java `int` that an exact integer result wraps around to: the value in the
   * `int` range that differs from `x` by a multiple of 2^32. It is written as repeated
   * steps of 2^32 so that the solver unfolds it only as far as a proof needs; the
   * closed form with `%` is the lemma `WrapClosedForm`.
   */
  function Wrap32(x: int): (r: int)
    ensures IsInt32(r)
    decreases if x < -TwoTo31 then -TwoTo31 - x else if x >= TwoTo31 then x - TwoTo31 + 1 else 0
  {
    if x < -TwoTo31 then Wrap32(x + TwoTo32)
    else if x >= TwoTo31 then Wrap32(x - TwoTo32)
    else x
  }

  /** Wrapping leaves an `int` alone. */
  lemma WrapOfInt32(x: int)
    requires IsInt32(x)
    ensures Wrap32(x) == x
  {
  }

  /** The usual closed form: shift into `[0, 2^32)`, reduce, shift back. */
  lemma {:induction false} WrapClosedForm(x: int)
    ensures Wrap32(x) == (x + TwoTo31) % TwoTo32 - TwoTo31
    decreases if x < -TwoTo31 then -TwoTo31 - x else if x >= TwoTo31 then x - TwoTo31 + 1 else 0
  {
    if x < -TwoTo31 {
      WrapClosedForm(x + TwoTo32);
      assert (x + TwoTo32 + TwoTo31) % TwoTo32 == (x + TwoTo31) % TwoTo32;
    } else if x >= TwoTo31 {
      WrapClosedForm(x - TwoTo32);
      assert (x - TwoTo32 + TwoTo31) % TwoTo32 == (x + TwoTo31) % TwoTo32;
    }
  }

  /** Wrapping changes a value by a multiple of 2^32. */
  lemma WrapDifference(x: int)
    ensures (x - Wrap32(x)) % TwoTo32 == 0
  {
    WrapClosedForm(x);
  }

  /** Two integers that agree modulo 2^32 wrap to the same `int`. */
  lemma WrapCongruent(x: int, y: int)
    requires (x - y) % TwoTo32 == 0
    ensures Wrap32(x) == Wrap32(y)
  {
    WrapClosedForm(x);
    WrapClosedForm(y);
    var k := (x - y) / TwoTo32;
    assert x == y + TwoTo32 * k;
    assert (x + TwoTo31) % TwoTo32 == (y + TwoTo31) % TwoTo32;
  }

  /** Subtracting in `int` arithmetic step by step is subtracting exactly and wrapping once. */
  lemma WrapThenSubtract(x: int, d: int, c: int)
    ensures Wrap32(Wrap32(x - d) - c) == Wrap32(x - (d + c))
  {
    WrapDifference(x - d);
    WrapCongruent(Wrap32(x - d) - c, x - (d + c));
  }

  /** `String.length()`: characters outside the Basic Multilingual Plane take two UTF-16 code units. */
  function Utf16Length(s: string): (n: nat)
    ensures |s| <= n <= 2 * |s|
    ensures (forall i :: 0 <= i < |s| ==> s[i] as int < 0x10000) ==> n == |s|
  {
    if s == [] then 0
    else (if s[0] as int < 0x10000 then 1 else 2) + Utf16Length(s[1..])
  }

  /**
   * `Arrays.hashCode`, and so `Objects.hash(a, b, ...)`, given the element hashes
   * (0 for a null element): start at 1 and fold `31 * h + e` in `int` arithmetic.
   */
  function ArraysHash(hs: seq<int>): (h: int)
    ensures IsInt32(h)
    ensures hs == [] ==> h == 1
  {
    if hs == [] then 1 else Wrap32(31 * ArraysHash(hs[..|hs| - 1]) + hs[|hs| - 1])
  }

  /** `Long.hashCode(v)`: the two 32-bit halves of the 64-bit pattern, xor-ed, read as an `int`. */
  function LongHash(v: int): (h: int)
    requires IsInt64(v)
    ensures IsInt32(h)
  {
    var bits := ((v + TwoTo64) % TwoTo64) as bv64;
    var folded := bits ^ (bits >> 32);
    Wrap32((folded & 0xFFFF_FFFF) as int)
  }
}
