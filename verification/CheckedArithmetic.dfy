/**
 Unsigned 64-bit arithmetic with the two overflow checks of src/base/number_util.cc.
 */
module CheckedArithmetic {

  const MAX_U64: int := 0xFFFF_FFFF_FFFF_FFFF
  const TWO_64: int := 0x1_0000_0000_0000_0000

  type U64 = x: int | 0 <= x <= MAX_U64

  /** The sum modulo 2^64, and whether it is the real sum. */
  function AddAndCheckOverflow(a: U64, b: U64): (r: (bool, U64))
    ensures r.0 <==> a + b <= MAX_U64
    ensures r.0 ==> r.1 == a + b
    ensures !r.0 ==> r.1 == a + b - TWO_64
  {
    (b <= MAX_U64 - a, (a + b) % TWO_64)
  }

  /** The product modulo 2^64, and whether it is the real product. */
  function MultiplyAndCheckOverflow(a: U64, b: U64): (r: (bool, U64))
    ensures r.0 <==> a * b <= MAX_U64
    ensures r.0 ==> r.1 == a * b
  {
    ProductFits(a, b);
    var wrapped := (a * b) % TWO_64;
    if a != 0 && b > MAX_U64 / a then (false, wrapped) else (true, wrapped)
  }

  /** The division in the guard tests exactly whether the product fits. */
  lemma ProductFits(a: U64, b: U64)
    ensures a == 0 || b <= MAX_U64 / a <==> a * b <= MAX_U64
    ensures 0 <= a * b
  {
    if a != 0 {
      var q := MAX_U64 / a;
      assert a * q <= MAX_U64 < a * (q + 1);
      if b <= q {
        assert a * b <= a * q;
      } else {
        assert a * (q + 1) <= a * b;
      }
    }
  }
}
