/**
 Arithmetic in GF(2^8) as src/base/unverified_aes256.cc performs it, and the proof that
 the two column transformations are inverse to each other.

 Doubling appears in two forms: XTime is the source's, with a branch; written out in shifts
 and rotations alone it is the form in which sums of many terms cancel term by term.
 */
module AesField {
  import opened AesTables

  /** GF_p8_mul3: despite its name it doubles, modulo x^8 + x^4 + x^3 + x + 1. */
  function XTime(a: bv8): (r: bv8)
  {
    var x := a * 2;
    if a >= 0x80 then x ^ 0x1b else x
  }

  /** Addition in GF(2^8), section 4.1 of FIPS 197. */
  function Add(a: bv8, b: bv8): bv8 {
    a ^ b
  }

  /** Multiplication in GF(2^8), section 4.2 of FIPS 197, by shift and add. */
  function GfMul(a: bv8, b: bv8): (r: bv8)
  {
    GfNibble(a, b & 0x0f) ^ GfNibble(XTime(XTime(XTime(XTime(a)))), b >> 4)
  }

  /** The product with a four-bit factor. */
  function GfNibble(a: bv8, n: bv8): (r: bv8) {
    (if n & 1 == 0 then 0 else a)
    ^ (if n & 2 == 0 then 0 else XTime(a))
    ^ (if n & 4 == 0 then 0 else XTime(XTime(a)))
    ^ (if n & 8 == 0 then 0 else XTime(XTime(XTime(a))))
  }

  /** The inverse of the affine transformation of section 5.1.1 of FIPS 197. */
  function InverseAffine(s: bv8): bv8 {
    s.RotateLeft(1) ^ s.RotateLeft(3) ^ s.RotateLeft(6) ^ 0x05
  }

  /** kSBox is the table FIPS 197 defines: multiplicative inverse, then the affine map. */
  lemma SBoxIsAffineOfInverse(b: bv8)
    ensures b != 0 ==> GfMul(b, InverseAffine(SBox(b))) == 1
    ensures b == 0 ==> InverseAffine(SBox(b)) == 0
  {}

  function Xor4(a: bv8, b: bv8, c: bv8, d: bv8): bv8 {
    a ^ b ^ c ^ d
  }

  // The multiples MixColumnsImpl and InvMixColumnsImpl build.

  function Times3(a: bv8): bv8 {
    XTime(a) ^ a
  }

  function Times9(a: bv8): bv8 {
    XTime(XTime(XTime(a))) ^ a
  }

  function Times11(a: bv8): bv8 {
    XTime(XTime(XTime(a)) ^ a) ^ a
  }

  function Times13(a: bv8): bv8 {
    XTime(XTime(XTime(a) ^ a)) ^ a
  }

  function Times14(a: bv8): bv8 {
    XTime(XTime(XTime(a) ^ a) ^ a)
  }

  /** The source's shortcuts are products with the constants of section 5.3.3 of FIPS 197. */
  lemma TimesAreProducts(a: bv8)
    ensures XTime(a) == GfMul(a, 2) && Times3(a) == GfMul(a, 3)
    ensures Times9(a) == GfMul(a, 9) && Times11(a) == GfMul(a, 11)
    ensures Times13(a) == GfMul(a, 13) && Times14(a) == GfMul(a, 14)
  {
    assert Times9(a) == GfMul(a, 9);
    assert Times11(a) == GfMul(a, 11) by { Times11IsProduct(a); }
    assert Times13(a) == GfMul(a, 13) by { Times13IsProduct(a); }
    assert Times14(a) == GfMul(a, 14) by { Times14IsProduct(a); }
  }

  lemma Times11IsProduct(a: bv8)
    ensures Times11(a) == GfMul(a, 11)
  {}

  lemma Times13IsProduct(a: bv8)
    ensures Times13(a) == GfMul(a, 13)
  {}

  lemma Times14IsProduct(a: bv8)
    ensures Times14(a) == GfMul(a, 14)
  {}

  /** 2a + 3b + c + d: the first byte of a mixed column. The other three rotate the arguments. */
  function MixByte(a: bv8, b: bv8, c: bv8, d: bv8): bv8 {
    var s := a ^ b;
    s.RotateLeft(1) ^ (s >> 7 << 1) ^ (s >> 7 << 3) ^ (s >> 7 << 4) ^ b ^ c ^ d
  }

  /** 14a + 11b + 13c + 9d, by Horner's rule. */
  function InvMixByte(a: bv8, b: bv8, c: bv8, d: bv8): bv8 {
    var s := a ^ b ^ c ^ d;
    var s := s.RotateLeft(1) ^ (s >> 7 << 1) ^ (s >> 7 << 3) ^ (s >> 7 << 4) ^ a ^ c;
    var s := s.RotateLeft(1) ^ (s >> 7 << 1) ^ (s >> 7 << 3) ^ (s >> 7 << 4) ^ a ^ b;
    s.RotateLeft(1) ^ (s >> 7 << 1) ^ (s >> 7 << 3) ^ (s >> 7 << 4) ^ b ^ c ^ d
  }

  lemma XTimeBits(a: bv8)
    ensures XTime(a) == a.RotateLeft(1) ^ (a >> 7 << 1) ^ (a >> 7 << 3) ^ (a >> 7 << 4)
  {}

  lemma Times3Bits(a: bv8)
    ensures Times3(a) == a.RotateLeft(1) ^ (a >> 7 << 1) ^ (a >> 7 << 3) ^ (a >> 7 << 4) ^ a
  {
    XTimeBits(a);
  }

  lemma MixByteIsSum(a: bv8, b: bv8, c: bv8, d: bv8)
    ensures Xor4(XTime(a), Times3(b), c, d) == MixByte(a, b, c, d)
  {
    XTimeBits(a);
    Times3Bits(b);
    assert
      Xor4(a.RotateLeft(1) ^ (a >> 7 << 1) ^ (a >> 7 << 3) ^ (a >> 7 << 4),
           b.RotateLeft(1) ^ (b >> 7 << 1) ^ (b >> 7 << 3) ^ (b >> 7 << 4) ^ b, c, d) == MixByte(a, b, c, d);
  }

  lemma Times9Bits(a: bv8)
    ensures
      var p := a.RotateLeft(1) ^ (a >> 7 << 1) ^ (a >> 7 << 3) ^ (a >> 7 << 4);
      var q := p.RotateLeft(1) ^ (p >> 7 << 1) ^ (p >> 7 << 3) ^ (p >> 7 << 4);
      var r := q.RotateLeft(1) ^ (q >> 7 << 1) ^ (q >> 7 << 3) ^ (q >> 7 << 4);
      Times9(a) == r ^ a
  {
    XTimeBits(a);
    XTimeBits(XTime(a));
    XTimeBits(XTime(XTime(a)));
  }

  lemma Times11Bits(a: bv8)
    ensures
      var p := a.RotateLeft(1) ^ (a >> 7 << 1) ^ (a >> 7 << 3) ^ (a >> 7 << 4);
      var q := p.RotateLeft(1) ^ (p >> 7 << 1) ^ (p >> 7 << 3) ^ (p >> 7 << 4) ^ a;
      var r := q.RotateLeft(1) ^ (q >> 7 << 1) ^ (q >> 7 << 3) ^ (q >> 7 << 4);
      Times11(a) == r ^ a
  {
    XTimeBits(a);
    XTimeBits(XTime(a));
    XTimeBits(XTime(XTime(a)) ^ a);
  }

  lemma Times13Bits(a: bv8)
    ensures
      var p := a.RotateLeft(1) ^ (a >> 7 << 1) ^ (a >> 7 << 3) ^ (a >> 7 << 4) ^ a;
      var q := p.RotateLeft(1) ^ (p >> 7 << 1) ^ (p >> 7 << 3) ^ (p >> 7 << 4);
      var r := q.RotateLeft(1) ^ (q >> 7 << 1) ^ (q >> 7 << 3) ^ (q >> 7 << 4);
      Times13(a) == r ^ a
  {
    XTimeBits(a);
    XTimeBits(XTime(a) ^ a);
    XTimeBits(XTime(XTime(a) ^ a));
  }

  lemma Times14Bits(a: bv8)
    ensures
      var p := a.RotateLeft(1) ^ (a >> 7 << 1) ^ (a >> 7 << 3) ^ (a >> 7 << 4) ^ a;
      var q := p.RotateLeft(1) ^ (p >> 7 << 1) ^ (p >> 7 << 3) ^ (p >> 7 << 4) ^ a;
      Times14(a) == q.RotateLeft(1) ^ (q >> 7 << 1) ^ (q >> 7 << 3) ^ (q >> 7 << 4)
  {
    XTimeBits(a);
    XTimeBits(XTime(a) ^ a);
    XTimeBits(XTime(XTime(a) ^ a) ^ a);
  }

  lemma InvMixByteIsSum(a: bv8, b: bv8, c: bv8, d: bv8)
    ensures Xor4(Times14(a), Times11(b), Times13(c), Times9(d)) == InvMixByte(a, b, c, d)
  {
    Times14Bits(a);
    Times11Bits(b);
    Times13Bits(c);
    Times9Bits(d);
    assert
      var p := a.RotateLeft(1) ^ (a >> 7 << 1) ^ (a >> 7 << 3) ^ (a >> 7 << 4) ^ a;
      var q := p.RotateLeft(1) ^ (p >> 7 << 1) ^ (p >> 7 << 3) ^ (p >> 7 << 4) ^ a;
      var t14 := q.RotateLeft(1) ^ (q >> 7 << 1) ^ (q >> 7 << 3) ^ (q >> 7 << 4);
      var p := b.RotateLeft(1) ^ (b >> 7 << 1) ^ (b >> 7 << 3) ^ (b >> 7 << 4);
      var q := p.RotateLeft(1) ^ (p >> 7 << 1) ^ (p >> 7 << 3) ^ (p >> 7 << 4) ^ b;
      var t11 := q.RotateLeft(1) ^ (q >> 7 << 1) ^ (q >> 7 << 3) ^ (q >> 7 << 4);
      var p := c.RotateLeft(1) ^ (c >> 7 << 1) ^ (c >> 7 << 3) ^ (c >> 7 << 4) ^ c;
      var q := p.RotateLeft(1) ^ (p >> 7 << 1) ^ (p >> 7 << 3) ^ (p >> 7 << 4);
      var t13 := q.RotateLeft(1) ^ (q >> 7 << 1) ^ (q >> 7 << 3) ^ (q >> 7 << 4);
      var p := d.RotateLeft(1) ^ (d >> 7 << 1) ^ (d >> 7 << 3) ^ (d >> 7 << 4);
      var q := p.RotateLeft(1) ^ (p >> 7 << 1) ^ (p >> 7 << 3) ^ (p >> 7 << 4);
      var t9 := q.RotateLeft(1) ^ (q >> 7 << 1) ^ (q >> 7 << 3) ^ (q >> 7 << 4);
      Xor4(t14, t11 ^ b, t13 ^ c, t9 ^ d) == InvMixByte(a, b, c, d);
  }

  /** The first byte of InvMixColumns after MixColumns. */
  lemma MixThenInvMix(a: bv8, b: bv8, c: bv8, d: bv8)
    ensures InvMixByte(MixByte(a, b, c, d), MixByte(b, c, d, a), MixByte(c, d, a, b), MixByte(d, a, b, c)) == a
  {
    assert
      var s := a ^ b;
      var r0 := s.RotateLeft(1) ^ (s >> 7 << 1) ^ (s >> 7 << 3) ^ (s >> 7 << 4) ^ b ^ c ^ d;
      var s := b ^ c;
      var r1 := s.RotateLeft(1) ^ (s >> 7 << 1) ^ (s >> 7 << 3) ^ (s >> 7 << 4) ^ c ^ d ^ a;
      var s := c ^ d;
      var r2 := s.RotateLeft(1) ^ (s >> 7 << 1) ^ (s >> 7 << 3) ^ (s >> 7 << 4) ^ d ^ a ^ b;
      var s := d ^ a;
      var r3 := s.RotateLeft(1) ^ (s >> 7 << 1) ^ (s >> 7 << 3) ^ (s >> 7 << 4) ^ a ^ b ^ c;
      InvMixByte(r0, r1, r2, r3) == a;
  }

  /** The first byte of MixColumns after InvMixColumns. */
  lemma InvMixThenMix(a: bv8, b: bv8, c: bv8, d: bv8)
    ensures MixByte(InvMixByte(a, b, c, d), InvMixByte(b, c, d, a), InvMixByte(c, d, a, b), InvMixByte(d, a, b, c)) == a
  {
    assert
      var t := a ^ b ^ c ^ d;
      var s := t.RotateLeft(1) ^ (t >> 7 << 1) ^ (t >> 7 << 3) ^ (t >> 7 << 4) ^ a ^ c;
      var s := s.RotateLeft(1) ^ (s >> 7 << 1) ^ (s >> 7 << 3) ^ (s >> 7 << 4) ^ a ^ b;
      var r0 := s.RotateLeft(1) ^ (s >> 7 << 1) ^ (s >> 7 << 3) ^ (s >> 7 << 4) ^ b ^ c ^ d;
      var s := t.RotateLeft(1) ^ (t >> 7 << 1) ^ (t >> 7 << 3) ^ (t >> 7 << 4) ^ b ^ d;
      var s := s.RotateLeft(1) ^ (s >> 7 << 1) ^ (s >> 7 << 3) ^ (s >> 7 << 4) ^ b ^ c;
      var r1 := s.RotateLeft(1) ^ (s >> 7 << 1) ^ (s >> 7 << 3) ^ (s >> 7 << 4) ^ c ^ d ^ a;
      var s := t.RotateLeft(1) ^ (t >> 7 << 1) ^ (t >> 7 << 3) ^ (t >> 7 << 4) ^ c ^ a;
      var s := s.RotateLeft(1) ^ (s >> 7 << 1) ^ (s >> 7 << 3) ^ (s >> 7 << 4) ^ c ^ d;
      var r2 := s.RotateLeft(1) ^ (s >> 7 << 1) ^ (s >> 7 << 3) ^ (s >> 7 << 4) ^ d ^ a ^ b;
      var s := t.RotateLeft(1) ^ (t >> 7 << 1) ^ (t >> 7 << 3) ^ (t >> 7 << 4) ^ d ^ b;
      var s := s.RotateLeft(1) ^ (s >> 7 << 1) ^ (s >> 7 << 3) ^ (s >> 7 << 4) ^ d ^ a;
      var r3 := s.RotateLeft(1) ^ (s >> 7 << 1) ^ (s >> 7 << 3) ^ (s >> 7 << 4) ^ a ^ b ^ c;
      MixByte(r0, r1, r2, r3) == a;
  }
}
