// Kotlin's fixed-width integers. Dafny's `int` is unbounded, so the source's
// `Int` (32-bit) and `Long` (64-bit) are subset types, and the silent
// two's-complement wrap-around of their arithmetic is written out.
module Numeric {

  const INT32_MIN: int := -0x8000_0000
  const INT32_MAX: int := 0x7fff_ffff
  const INT64_MIN: int := -0x8000_0000_0000_0000
  const INT64_MAX: int := 0x7fff_ffff_ffff_ffff

  /** Kotlin `Int`. */
  type Int32 = x: int | INT32_MIN <= x <= INT32_MAX

  /** Kotlin `Long`. */
  type Int64 = x: int | INT64_MIN <= x <= INT64_MAX

  /** The `Int` a 32-bit two's-complement operation leaves behind for the exact result `x`. */
  function Wrap32(x: int): (r: Int32)
    ensures (r - x) % 0x1_0000_0000 == 0
    ensures INT32_MIN <= x <= INT32_MAX ==> r == x
  {
    (x - INT32_MIN) % 0x1_0000_0000 + INT32_MIN
  }

  /** The `Long` a 64-bit two's-complement operation leaves behind for the exact result `x`. */
  function Wrap64(x: int): (r: Int64)
    ensures (r - x) % 0x1_0000_0000_0000_0000 == 0
    ensures INT64_MIN <= x <= INT64_MAX ==> r == x
  {
    (x - INT64_MIN) % 0x1_0000_0000_0000_0000 + INT64_MIN
  }

  /** Wrapping the operands of an addition first does not change the wrapped sum. */
  lemma Wrap64Add(a: int, b: int)
    ensures Wrap64(Wrap64(a) + Wrap64(b)) == Wrap64(a + b)
  {
    var m := 0x1_0000_0000_0000_0000;
    var ka := (Wrap64(a) - a) / m;
    var kb := (Wrap64(b) - b) / m;
    assert Wrap64(a) + Wrap64(b) == a + b + (ka + kb) * m;
    Wrap64Periodic(a + b, ka + kb);
  }

  /** Wrap64 only depends on its argument modulo 2^64. */
  lemma Wrap64Periodic(x: int, k: int)
    ensures Wrap64(x + k * 0x1_0000_0000_0000_0000) == Wrap64(x)
  {
    var m := 0x1_0000_0000_0000_0000;
    var y := x - INT64_MIN;
    assert (y + k * m) % m == y % m by {
      var q := y / m;
      assert y == q * m + y % m;
      assert y + k * m == (q + k) * m + y % m;
    }
  }
}
