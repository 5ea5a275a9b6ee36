/** Shared vocabulary: optional and fallible results, Java's 32-bit `int`,
    and a few facts about integer ranges used by the table builders. */
module Prelude {

  /** A value that may be absent; stands for a nullable Java reference. */
  datatype Option<+T> = None | Some(value: T)

  /** Either a value or the exception the Java code would have thrown. */
  datatype Result<+T, +E> = Success(value: T) | Failure(error: E)

  const INT32_MIN: int := -0x8000_0000
  const INT32_MAX: int := 0x7FFF_FFFF

  /** Java's `int`. */
  type Int32 = x: int | INT32_MIN <= x <= INT32_MAX

  /** Two's-complement wrap-around of Java `int` arithmetic. */
  function Wrap32(x: int): (r: Int32)
    ensures INT32_MIN <= x <= INT32_MAX ==> r == x
    ensures (r - x) % 0x1_0000_0000 == 0
  {
    (x - INT32_MIN) % 0x1_0000_0000 + INT32_MIN
  }

  /** The integers in `[lo, hi)`. */
  function Range(lo: int, hi: int): (s: set<int>)
    ensures forall x :: x in s <==> lo <= x < hi
    decreases hi - lo
  {
    if hi <= lo then {} else Range(lo, hi - 1) + {hi - 1}
  }

  lemma {:induction false} RangeSize(lo: int, hi: int)
    requires lo <= hi
    ensures |Range(lo, hi)| == hi - lo
    decreases hi - lo
  {
    if lo < hi {
      RangeSize(lo, hi - 1);
      assert Range(lo, hi) == Range(lo, hi - 1) + {hi - 1};
    } else {
      assert Range(lo, hi) == {};
    }
  }

  /** A set that contains a range and one point outside it is larger than the range. */
  lemma RangePlusOutsiderIsLarger(s: set<int>, lo: int, hi: int, x: int)
    requires lo <= hi
    requires Range(lo, hi) <= s
    requires x in s && !(lo <= x < hi)
    ensures |s| > hi - lo
  {
    RangeSize(lo, hi);
    var r := Range(lo, hi) + {x};
    assert |r| == hi - lo + 1;
    assert r <= s;
    SubsetSize(r, s);
  }

  lemma {:induction false} SubsetSize<T>(a: set<T>, b: set<T>)
    requires a <= b
    ensures |a| <= |b|
  {
    assert b == a + (b - a);
  }
}
