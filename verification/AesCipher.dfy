/**
 The cipher against section 5 of FIPS 197, with its numbers written out: every byte of every layer,
 fourteen rounds, and the place of each round key in the schedule.
 */
module AesCipher {
  import opened AesField
  import opened AesRounds
  import opened AesTables

  /** Section 5.1.3: the column times the matrix with rows 2 3 1 1, 1 2 3 1, 1 1 2 3 and 3 1 1 2. */
  lemma MixColumnIsProduct(c: Bytes)
    requires |c| == 4
    ensures MixColumn(c)[0] == Xor4(GfMul(c[0], 2), GfMul(c[1], 3), c[2], c[3])
    ensures MixColumn(c)[1] == Xor4(GfMul(c[1], 2), GfMul(c[2], 3), c[3], c[0])
    ensures MixColumn(c)[2] == Xor4(GfMul(c[2], 2), GfMul(c[3], 3), c[0], c[1])
    ensures MixColumn(c)[3] == Xor4(GfMul(c[3], 2), GfMul(c[0], 3), c[1], c[2])
  {
    hide MixByte, GfMul, XTime, Times3, Xor4;
    MixByteIsProduct(c[0], c[1], c[2], c[3]);
    MixByteIsProduct(c[1], c[2], c[3], c[0]);
    MixByteIsProduct(c[2], c[3], c[0], c[1]);
    MixByteIsProduct(c[3], c[0], c[1], c[2]);
  }

  lemma MixByteIsProduct(a: bv8, b: bv8, c: bv8, d: bv8)
    ensures MixByte(a, b, c, d) == Xor4(GfMul(a, 2), GfMul(b, 3), c, d)
  {
    hide MixByte, GfMul, XTime, Times3, Xor4;
    MixByteIsSum(a, b, c, d);
    TimesAreProducts(a);
    TimesAreProducts(b);
  }

  /** Section 5.3.3: the column times the matrix with 14, 11, 13 and 9 in its first row. */
  lemma InvMixColumnIsProduct(c: Bytes)
    requires |c| == 4
    ensures InvMixColumn(c)[0] == Xor4(GfMul(c[0], 14), GfMul(c[1], 11), GfMul(c[2], 13), GfMul(c[3], 9))
    ensures InvMixColumn(c)[1] == Xor4(GfMul(c[1], 14), GfMul(c[2], 11), GfMul(c[3], 13), GfMul(c[0], 9))
    ensures InvMixColumn(c)[2] == Xor4(GfMul(c[2], 14), GfMul(c[3], 11), GfMul(c[0], 13), GfMul(c[1], 9))
    ensures InvMixColumn(c)[3] == Xor4(GfMul(c[3], 14), GfMul(c[0], 11), GfMul(c[1], 13), GfMul(c[2], 9))
  {
    hide InvMixByte, GfMul, Xor4;
    InvMixByteIsProduct(c[0], c[1], c[2], c[3]);
    InvMixByteIsProduct(c[1], c[2], c[3], c[0]);
    InvMixByteIsProduct(c[2], c[3], c[0], c[1]);
    InvMixByteIsProduct(c[3], c[0], c[1], c[2]);
  }

  lemma InvMixByteIsProduct(a: bv8, b: bv8, c: bv8, d: bv8)
    ensures InvMixByte(a, b, c, d) == Xor4(GfMul(a, 14), GfMul(b, 11), GfMul(c, 13), GfMul(d, 9))
  {
    hide InvMixByte, GfMul, Times9, Times11, Times13, Times14, Xor4;
    InvMixByteIsSum(a, b, c, d);
    TimesAreProducts(a);
    TimesAreProducts(b);
    TimesAreProducts(c);
    TimesAreProducts(d);
  }

  /** A round of section 5.1: SubBytes, ShiftRows, MixColumns and AddRoundKey. */
  function FullRound(s: Bytes, key: Bytes): (r: Bytes)
    requires IsBlock(s) && IsBlock(key)
    ensures IsBlock(r)
  {
    Xor(MixColumns(SubShift(s)), key)
  }

  /** The last round, which has no MixColumns. */
  function LastRound(s: Bytes, key: Bytes): (r: Bytes)
    requires IsBlock(s) && IsBlock(key)
    ensures IsBlock(r)
  {
    Xor(SubShift(s), key)
  }

  lemma AddedAt(a: Bytes, b: Bytes, i: nat)
    requires |a| == |b| && i < |a|
    ensures Xor(a, b)[i] == Add(a[i], b[i])
  {
    hide Add;
  }

  /** The byte that SubBytes and ShiftRows bring to row `j` of column `c`. */
  function Diagonal(s: Bytes, c: nat, j: nat): bv8
    requires IsBlock(s) && c < 4 && j < 4
  {
    SBox(s[4 * ((c + j) % 4) + j])
  }

  lemma SubShiftAt(s: Bytes, c: nat, j: nat)
    requires IsBlock(s) && c < 4 && j < 4
    ensures SubShift(s)[4 * c + j] == Diagonal(s, c, j)
  {
    hide SBox, ShiftRows;
    var b := MapBytes(SBox, s);
    ShiftRowsAt(b, c, j);
    assert b[4 * ((c + j) % 4) + j] == SBox(s[4 * ((c + j) % 4) + j]);
  }

  /** Row `j` of column `c` comes from column `c + j`. */
  lemma ShiftRowsAt(b: Bytes, c: nat, j: nat)
    requires IsBlock(b) && c < 4 && j < 4
    ensures ShiftRows(b)[4 * c + j] == b[4 * ((c + j) % 4) + j]
  {
    assert (c + j) % 4 == if c + j < 4 then c + j else c + j - 4;
  }

  lemma LastRoundAt(s: Bytes, key: Bytes, c: nat, j: nat)
    requires IsBlock(s) && IsBlock(key) && c < 4 && j < 4
    ensures LastRound(s, key)[4 * c + j] == Add(Diagonal(s, c, j), key[4 * c + j])
  {
    hide Diagonal, SubShift, Xor, Add;
    SubShiftAt(s, c, j);
    AddedAt(SubShift(s), key, 4 * c + j);
  }

  lemma MixColumnsAt(b: Bytes, c: nat, j: nat)
    requires IsBlock(b) && c < 4 && j < 4
    ensures MixColumns(b)[4 * c + j] == MixColumn(b[4 * c..4 * c + 4])[j]
  {
    hide MixColumn;
    Columns(MixColumn(b[0..4]), MixColumn(b[4..8]), MixColumn(b[8..12]), MixColumn(b[12..16]));
  }

  /**
   The bytes of a round, from the bytes of the state before it: column `c` of the new state is the
   matrix times the substituted diagonal that starts in column `c`, plus the round key.
   */
  lemma FullRoundAt(s: Bytes, key: Bytes, c: nat)
    requires IsBlock(s) && IsBlock(key) && c < 4
    ensures var d0, d1, d2, d3 := Diagonal(s, c, 0), Diagonal(s, c, 1), Diagonal(s, c, 2), Diagonal(s, c, 3);
            var r := FullRound(s, key);
            && r[4 * c] == Add(Xor4(GfMul(d0, 2), GfMul(d1, 3), d2, d3), key[4 * c])
            && r[4 * c + 1] == Add(Xor4(GfMul(d1, 2), GfMul(d2, 3), d3, d0), key[4 * c + 1])
            && r[4 * c + 2] == Add(Xor4(GfMul(d2, 2), GfMul(d3, 3), d0, d1), key[4 * c + 2])
            && r[4 * c + 3] == Add(Xor4(GfMul(d3, 2), GfMul(d0, 3), d1, d2), key[4 * c + 3])
  {
    hide Diagonal, SubShift, MixColumn, GfMul, Xor4, Add, FullRound;
    DiagonalColumn(s, c);
    MixColumnIsProduct(SubShift(s)[4 * c..4 * c + 4]);
    FullRoundByte(s, key, c, 0);
    FullRoundByte(s, key, c, 1);
    FullRoundByte(s, key, c, 2);
    FullRoundByte(s, key, c, 3);
  }

  lemma DiagonalColumn(s: Bytes, c: nat)
    requires IsBlock(s) && c < 4
    ensures SubShift(s)[4 * c..4 * c + 4] == [Diagonal(s, c, 0), Diagonal(s, c, 1), Diagonal(s, c, 2), Diagonal(s, c, 3)]
  {
    hide Diagonal, SubShift;
    SubShiftAt(s, c, 0);
    SubShiftAt(s, c, 1);
    SubShiftAt(s, c, 2);
    SubShiftAt(s, c, 3);
  }

  lemma FullRoundByte(s: Bytes, key: Bytes, c: nat, j: nat)
    requires IsBlock(s) && IsBlock(key) && c < 4 && j < 4
    ensures FullRound(s, key)[4 * c + j] == Add(MixColumn(SubShift(s)[4 * c..4 * c + 4])[j], key[4 * c + j])
  {
    hide SubShift, MixColumns, MixColumn, Xor, Add;
    MixColumnsAt(SubShift(s), c, j);
    AddedAt(MixColumns(SubShift(s)), key, 4 * c + j);
  }

  /** Cipher() of section 5.1 with fourteen rounds, and the bytes of the schedule that each of them adds. */
  function Cipher14(w: Bytes, b: Bytes): Bytes
    requires |w| == 240 && |b| == 16
  {
    hide Xor, FullRound, LastRound;
    var s0 := Xor(b, w[0..16]);
    var s1 := FullRound(s0, w[16..32]);
    var s2 := FullRound(s1, w[32..48]);
    var s3 := FullRound(s2, w[48..64]);
    var s4 := FullRound(s3, w[64..80]);
    var s5 := FullRound(s4, w[80..96]);
    var s6 := FullRound(s5, w[96..112]);
    var s7 := FullRound(s6, w[112..128]);
    var s8 := FullRound(s7, w[128..144]);
    var s9 := FullRound(s8, w[144..160]);
    var s10 := FullRound(s9, w[160..176]);
    var s11 := FullRound(s10, w[176..192]);
    var s12 := FullRound(s11, w[192..208]);
    var s13 := FullRound(s12, w[208..224]);
    LastRound(s13, w[224..240])
  }

  /** TransformECB computes that cipher. */
  lemma CipherWrittenOut(w: Bytes, b: Bytes)
    requires |w| == 240 && |b| == 16
    ensures EncryptBlock(w, b) == Cipher14(w, b)
  {
    hide Xor, MixColumns, SubShift, Rounds, FullRound, LastRound, EncryptBlock;
    RoundsStart(w, b);
    RoundsStep(w, b, 1);
    RoundsStep(w, b, 2);
    RoundsStep(w, b, 3);
    RoundsStep(w, b, 4);
    RoundsStep(w, b, 5);
    RoundsStep(w, b, 6);
    RoundsStep(w, b, 7);
    RoundsStep(w, b, 8);
    RoundsStep(w, b, 9);
    RoundsStep(w, b, 10);
    RoundsStep(w, b, 11);
    RoundsStep(w, b, 12);
    RoundsStep(w, b, 13);
    RoundsEnd(w, b);
  }

  lemma RoundsEnd(w: Bytes, b: Bytes)
    requires |w| == 240 && |b| == 16
    ensures EncryptBlock(w, b) == LastRound(Rounds(w, b, 13), w[224..240])
  {
    hide Xor, SubShift, Rounds;
  }

  lemma RoundsStart(w: Bytes, b: Bytes)
    requires |w| == 240 && |b| == 16
    ensures Rounds(w, b, 0) == Xor(b, w[0..16])
  {
    hide Xor;
  }

  lemma RoundsStep(w: Bytes, b: Bytes, n: nat)
    requires |w| == 240 && |b| == 16 && 1 <= n <= 13
    ensures Rounds(w, b, n) == FullRound(Rounds(w, b, n - 1), w[16 * n..16 * n + 16])
  {
    hide Xor, MixColumns, SubShift;
  }

  /** The last sixteen bytes of the schedule are added to the result and enter it in no other way. */
  lemma LastKeyIsAdded(w: Bytes, v: Bytes, b: Bytes)
    requires |w| == 240 == |v| && |b| == 16 && w[..224] == v[..224]
    ensures Xor(EncryptBlock(w, b), EncryptBlock(v, b)) == Xor(w[224..240], v[224..240])
  {
    hide Rounds, SubShift, EncryptBlock, LastRound, Xor;
    SameRounds(w, v, b, 13);
    RoundsEnd(w, b);
    RoundsEnd(v, b);
    LastRoundsDiffer(Rounds(w, b, 13), w[224..240], v[224..240]);
  }

  lemma LastRoundsDiffer(s: Bytes, key: Bytes, other: Bytes)
    requires IsBlock(s) && IsBlock(key) && IsBlock(other)
    ensures Xor(LastRound(s, key), LastRound(s, other)) == Xor(key, other)
  {
    hide SubShift, Add;
    forall i | 0 <= i < 16
      ensures Xor(LastRound(s, key), LastRound(s, other))[i] == Xor(key, other)[i]
    {
      SumsCancel(SubShift(s)[i], key[i], other[i]);
    }
  }

  lemma SumsCancel(s: bv8, a: bv8, b: bv8)
    ensures Add(Add(s, a), Add(s, b)) == Add(a, b)
  {}

  lemma {:induction false} SameRounds(w: Bytes, v: Bytes, b: Bytes, n: nat)
    requires |w| == 240 == |v| && |b| == 16 && w[..224] == v[..224] && n <= 13
    ensures Rounds(w, b, n) == Rounds(v, b, n)
    decreases n
  {
    hide Xor, FullRound, Rounds;
    assert w[..224][16 * n..16 * n + 16] == w[16 * n..16 * n + 16];
    assert v[..224][16 * n..16 * n + 16] == v[16 * n..16 * n + 16];
    if n == 0 {
      RoundsStart(w, b);
      RoundsStart(v, b);
    } else {
      SameRounds(w, v, b, n - 1);
      RoundsStep(w, b, n);
      RoundsStep(v, b, n);
    }
  }
}
