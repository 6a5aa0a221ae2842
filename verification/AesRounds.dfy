/**
 The cipher and its inverse as functions on sixteen-byte blocks (section 5 of FIPS 197),
 and the proof that each undoes the other.
 */
module AesRounds {
  import opened AesField
  import opened AesTables

  const BLOCK_BYTES := 16
  const KEY_BYTES := 32
  const KEY_SCHEDULE_BYTES := 240
  const ROUNDS := 14

  type Bytes = seq<bv8>

  predicate IsBlock(b: Bytes) {
    |b| == BLOCK_BYTES
  }

  predicate IsSchedule(w: Bytes) {
    |w| == KEY_SCHEDULE_BYTES
  }

  function Xor(a: Bytes, b: Bytes): (r: Bytes)
    requires |a| == |b|
    ensures |r| == |a|
  {
    seq(|a|, i requires 0 <= i < |a| => Add(a[i], b[i]))
  }

  function MapBytes(f: bv8 -> bv8, b: Bytes): (r: Bytes)
    ensures |r| == |b|
  {
    seq(|b|, i requires 0 <= i < |b| => f(b[i]))
  }

  /** Section 5.1.2 of FIPS 197, on the column-major state. */
  function ShiftRows(b: Bytes): (r: Bytes)
    requires IsBlock(b)
    ensures IsBlock(r)
  {
    [b[0], b[5], b[10], b[15],
     b[4], b[9], b[14], b[3],
     b[8], b[13], b[2], b[7],
     b[12], b[1], b[6], b[11]]
  }

  /** Section 5.3.1 of FIPS 197. */
  function InvShiftRows(b: Bytes): (r: Bytes)
    requires IsBlock(b)
    ensures IsBlock(r)
  {
    [b[0], b[13], b[10], b[7],
     b[4], b[1], b[14], b[11],
     b[8], b[5], b[2], b[15],
     b[12], b[9], b[6], b[3]]
  }

  /** Section 5.1.3 of FIPS 197. */
  function MixColumn(c: Bytes): (r: Bytes)
    requires |c| == 4
    ensures |r| == 4
  {
    [MixByte(c[0], c[1], c[2], c[3]), MixByte(c[1], c[2], c[3], c[0]),
     MixByte(c[2], c[3], c[0], c[1]), MixByte(c[3], c[0], c[1], c[2])]
  }

  /** Section 5.3.3 of FIPS 197. */
  function InvMixColumn(c: Bytes): (r: Bytes)
    requires |c| == 4
    ensures |r| == 4
  {
    [InvMixByte(c[0], c[1], c[2], c[3]), InvMixByte(c[1], c[2], c[3], c[0]),
     InvMixByte(c[2], c[3], c[0], c[1]), InvMixByte(c[3], c[0], c[1], c[2])]
  }

  function MixColumns(b: Bytes): (r: Bytes)
    requires IsBlock(b)
    ensures IsBlock(r)
  {
    MixColumn(b[0..4]) + MixColumn(b[4..8]) + MixColumn(b[8..12]) + MixColumn(b[12..16])
  }

  function InvMixColumns(b: Bytes): (r: Bytes)
    requires IsBlock(b)
    ensures IsBlock(r)
  {
    InvMixColumn(b[0..4]) + InvMixColumn(b[4..8]) + InvMixColumn(b[8..12]) + InvMixColumn(b[12..16])
  }

  function RoundKey(w: Bytes, round: nat): (k: Bytes)
    requires IsSchedule(w) && round <= ROUNDS
    ensures IsBlock(k)
  {
    w[BLOCK_BYTES * round..BLOCK_BYTES * round + BLOCK_BYTES]
  }

  function SubShift(b: Bytes): (r: Bytes)
    requires IsBlock(b)
    ensures IsBlock(r)
  {
    ShiftRows(MapBytes(SBox, b))
  }

  function InvShiftSub(b: Bytes): (r: Bytes)
    requires IsBlock(b)
    ensures IsBlock(r)
  {
    MapBytes(InvSBox, InvShiftRows(b))
  }

  /** The state after the initial key addition and `n` full rounds. */
  function Rounds(w: Bytes, b: Bytes, n: nat): (r: Bytes)
    requires IsSchedule(w) && IsBlock(b) && n <= ROUNDS
    ensures IsBlock(r)
  {
    if n == 0 then Xor(b, RoundKey(w, 0))
    else Xor(MixColumns(SubShift(Rounds(w, b, n - 1))), RoundKey(w, n))
  }

  /** The cipher: thirteen full rounds and one without MixColumns. */
  function EncryptBlock(w: Bytes, b: Bytes): (r: Bytes)
    requires IsSchedule(w) && IsBlock(b)
    ensures IsBlock(r)
  {
    Xor(SubShift(Rounds(w, b, ROUNDS - 1)), RoundKey(w, ROUNDS))
  }

  /** Takes `n` full rounds and the initial key addition back. */
  function InvRounds(w: Bytes, b: Bytes, n: nat): (r: Bytes)
    requires IsSchedule(w) && IsBlock(b) && n <= ROUNDS
    ensures IsBlock(r)
    decreases n
  {
    if n == 0 then Xor(b, RoundKey(w, 0))
    else InvRounds(w, InvShiftSub(InvMixColumns(Xor(b, RoundKey(w, n)))), n - 1)
  }

  function DecryptBlock(w: Bytes, b: Bytes): (r: Bytes)
    requires IsSchedule(w) && IsBlock(b)
    ensures IsBlock(r)
  {
    InvRounds(w, InvShiftSub(Xor(b, RoundKey(w, ROUNDS))), ROUNDS - 1)
  }

  // ---------------------------------------------------------------------------
  // Every layer is undone by its inverse
  // ---------------------------------------------------------------------------

  lemma XorTwice(a: Bytes, k: Bytes)
    requires |a| == |k|
    ensures Xor(Xor(a, k), k) == a
  {
    forall i | 0 <= i < |a|
      ensures Xor(Xor(a, k), k)[i] == a[i]
    {
      XorTwiceByte(a[i], k[i]);
    }
  }

  lemma XorTwiceByte(x: bv8, k: bv8)
    ensures Add(Add(x, k), k) == x
  {}

  lemma MapBytesInverse(f: bv8 -> bv8, g: bv8 -> bv8, b: Bytes)
    requires forall x: bv8 :: g(f(x)) == x
    ensures MapBytes(g, MapBytes(f, b)) == b
  {
    forall i | 0 <= i < |b|
      ensures MapBytes(g, MapBytes(f, b))[i] == b[i]
    {
      assert g(f(b[i])) == b[i];
    }
  }

  /** Row `row` of the column-major state. */
  function Row(b: Bytes, row: nat): (r: Bytes)
    requires IsBlock(b) && row < 4
    ensures |r| == 4
  {
    [b[row], b[row + 4], b[row + 8], b[row + 12]]
  }

  /** A block is determined by its rows. */
  lemma SameRows(a: Bytes, b: Bytes)
    requires IsBlock(a) && IsBlock(b)
    requires Row(a, 0) == Row(b, 0) && Row(a, 1) == Row(b, 1) && Row(a, 2) == Row(b, 2) && Row(a, 3) == Row(b, 3)
    ensures a == b
  {
    assert forall r: nat, c: nat | r < 4 && c < 4 :: Row(a, r)[c] == Row(b, r)[c];
  }

  function Left(r: Bytes, n: nat): Bytes
    requires |r| == 4 && n < 4
  {
    r[n..] + r[..n]
  }

  /** Row r moves r columns to the left, and back. */
  lemma ShiftRowsMovesRows(b: Bytes, row: nat)
    requires IsBlock(b) && row < 4
    ensures Row(ShiftRows(b), row) == Left(Row(b, row), row)
    ensures Row(InvShiftRows(b), row) == Left(Row(b, row), (4 - row) % 4)
  {
    if row == 0 {
      assert (4 - row) % 4 == 0;
    } else {
      assert (4 - row) % 4 == 4 - row;
    }
    RowsMoveLeft(b);
    RowsMoveRight(b);
    hide ShiftRows, InvShiftRows, Row, Left;
  }

  lemma RowsMoveLeft(b: Bytes)
    requires IsBlock(b)
    ensures var s := ShiftRows(b);
            && Row(s, 0) == Left(Row(b, 0), 0) && Row(s, 1) == Left(Row(b, 1), 1)
            && Row(s, 2) == Left(Row(b, 2), 2) && Row(s, 3) == Left(Row(b, 3), 3)
  {}

  lemma RowsMoveRight(b: Bytes)
    requires IsBlock(b)
    ensures var s := InvShiftRows(b);
            && Row(s, 0) == Left(Row(b, 0), 0) && Row(s, 1) == Left(Row(b, 1), 3)
            && Row(s, 2) == Left(Row(b, 2), 2) && Row(s, 3) == Left(Row(b, 3), 1)
  {}

  lemma ShiftRowsInverse(b: Bytes)
    requires IsBlock(b)
    ensures InvShiftRows(ShiftRows(b)) == b
    ensures ShiftRows(InvShiftRows(b)) == b
  {}

  lemma SubShiftInverse(b: Bytes)
    requires IsBlock(b)
    ensures InvShiftSub(SubShift(b)) == b
    ensures SubShift(InvShiftSub(b)) == b
  {
    SubBytesInverse(b);
    SubBytesInverse(InvShiftRows(b));
    ShiftRowsInverse(MapBytes(SBox, b));
    ShiftRowsInverse(b);
  }

  lemma SubBytesInverse(b: Bytes)
    ensures MapBytes(InvSBox, MapBytes(SBox, b)) == b
    ensures MapBytes(SBox, MapBytes(InvSBox, b)) == b
  {
    forall x: bv8
      ensures InvSBox(SBox(x)) == x && SBox(InvSBox(x)) == x
    {
      TablesAreInverse(x);
    }
    MapBytesInverse(SBox, InvSBox, b);
    MapBytesInverse(InvSBox, SBox, b);
  }

  lemma MixColumnInverse(c: Bytes)
    requires |c| == 4
    ensures InvMixColumn(MixColumn(c)) == c
    ensures MixColumn(InvMixColumn(c)) == c
  {
    MixThenInvMix(c[0], c[1], c[2], c[3]);
    MixThenInvMix(c[1], c[2], c[3], c[0]);
    MixThenInvMix(c[2], c[3], c[0], c[1]);
    MixThenInvMix(c[3], c[0], c[1], c[2]);
    InvMixThenMix(c[0], c[1], c[2], c[3]);
    InvMixThenMix(c[1], c[2], c[3], c[0]);
    InvMixThenMix(c[2], c[3], c[0], c[1]);
    InvMixThenMix(c[3], c[0], c[1], c[2]);
  }

  lemma MixColumnsInverse(b: Bytes)
    requires IsBlock(b)
    ensures InvMixColumns(MixColumns(b)) == b
    ensures MixColumns(InvMixColumns(b)) == b
  {
    Columns(MixColumn(b[0..4]), MixColumn(b[4..8]), MixColumn(b[8..12]), MixColumn(b[12..16]));
    Columns(InvMixColumn(b[0..4]), InvMixColumn(b[4..8]), InvMixColumn(b[8..12]), InvMixColumn(b[12..16]));
    MixColumnInverse(b[0..4]);
    MixColumnInverse(b[4..8]);
    MixColumnInverse(b[8..12]);
    MixColumnInverse(b[12..16]);
    assert b == b[0..4] + b[4..8] + b[8..12] + b[12..16];
  }

  lemma Columns(c0: Bytes, c1: Bytes, c2: Bytes, c3: Bytes)
    requires |c0| == |c1| == |c2| == |c3| == 4
    ensures var b := c0 + c1 + c2 + c3; b[0..4] == c0 && b[4..8] == c1 && b[8..12] == c2 && b[12..16] == c3
  {}

  /** `n` rounds and their inverse unwind, whichever is done first. */
  lemma RoundsInverse(w: Bytes, b: Bytes, n: nat)
    requires IsSchedule(w) && IsBlock(b) && n <= ROUNDS
    ensures InvRounds(w, Rounds(w, b, n), n) == b
  {
    if n == 0 {
      XorTwice(b, RoundKey(w, 0));
    } else {
      var prev := Rounds(w, b, n - 1);
      XorTwice(MixColumns(SubShift(prev)), RoundKey(w, n));
      MixColumnsInverse(SubShift(prev));
      SubShiftInverse(prev);
      RoundsInverse(w, b, n - 1);
    }
  }

  lemma InvRoundsInverse(w: Bytes, b: Bytes, n: nat)
    requires IsSchedule(w) && IsBlock(b) && n <= ROUNDS
    ensures Rounds(w, InvRounds(w, b, n), n) == b
    decreases n
  {
    if n == 0 {
      XorTwice(b, RoundKey(w, 0));
    } else {
      var mixed := Xor(b, RoundKey(w, n));
      var prev := InvShiftSub(InvMixColumns(mixed));
      InvRoundsInverse(w, prev, n - 1);
      SubShiftInverse(InvMixColumns(mixed));
      MixColumnsInverse(mixed);
      XorTwice(b, RoundKey(w, n));
    }
  }

  /** InverseTransformECB undoes TransformECB. */
  lemma DecryptUndoesEncrypt(w: Bytes, b: Bytes)
    requires IsSchedule(w) && IsBlock(b)
    ensures DecryptBlock(w, EncryptBlock(w, b)) == b
  {
    var state := Rounds(w, b, ROUNDS - 1);
    XorTwice(SubShift(state), RoundKey(w, ROUNDS));
    SubShiftInverse(state);
    RoundsInverse(w, b, ROUNDS - 1);
  }

  /** TransformECB undoes InverseTransformECB. */
  lemma EncryptUndoesDecrypt(w: Bytes, b: Bytes)
    requires IsSchedule(w) && IsBlock(b)
    ensures EncryptBlock(w, DecryptBlock(w, b)) == b
  {
    var last := Xor(b, RoundKey(w, ROUNDS));
    InvRoundsInverse(w, InvShiftSub(last), ROUNDS - 1);
    SubShiftInverse(last);
    XorTwice(b, RoundKey(w, ROUNDS));
  }
}
