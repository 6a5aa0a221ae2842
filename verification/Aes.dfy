/**
 The block transformations of src/base/unverified_aes256.cc, in place on a byte buffer.
 A block is sixteen bytes of `buf` from `off` on; every method states the new block as a
 function of the old one and that no byte outside it changed.
 */
module Aes {
  import opened AesField
  import opened AesRounds
  import opened AesTables

  ghost predicate HasBlock(buf: array<bv8>, off: nat) {
    off + BLOCK_BYTES <= buf.Length
  }

  ghost function BlockAt(buf: array<bv8>, off: nat): (b: Bytes)
    requires HasBlock(buf, off)
    reads buf
    ensures IsBlock(b)
  {
    buf[off..off + BLOCK_BYTES]
  }

  /** The bytes before and after the block. */
  ghost function Around(buf: array<bv8>, off: nat): (Bytes, Bytes)
    requires HasBlock(buf, off)
    reads buf
  {
    (buf[..off], buf[off + BLOCK_BYTES..])
  }

  /** Adds sixteen bytes to the block. */
  method XorBlock(buf: array<bv8>, off: nat, key: Bytes)
    requires HasBlock(buf, off) && IsBlock(key)
    modifies buf
    ensures BlockAt(buf, off) == Xor(old(BlockAt(buf, off)), key)
    ensures Around(buf, off) == old(Around(buf, off))
  {
    for i := 0 to BLOCK_BYTES
      invariant forall j | 0 <= j < i :: BlockAt(buf, off)[j] == Add(old(BlockAt(buf, off))[j], key[j])
      invariant forall j | i <= j < BLOCK_BYTES :: BlockAt(buf, off)[j] == old(BlockAt(buf, off))[j]
      invariant Around(buf, off) == old(Around(buf, off))
    {
      assert buf[off + i] == old(BlockAt(buf, off))[i];
      buf[off + i] := Add(buf[off + i], key[i]);
    }
  }

  method AddRoundKey(buf: array<bv8>, off: nat, w: array<bv8>, key: nat)
    requires HasBlock(buf, off) && HasBlock(w, key) && buf != w
    modifies buf
    ensures BlockAt(buf, off) == Xor(old(BlockAt(buf, off)), BlockAt(w, key))
    ensures Around(buf, off) == old(Around(buf, off))
  {
    XorBlock(buf, off, w[key..key + BLOCK_BYTES]);
  }

  /** The loop SubBytes and InvSubBytes share. */
  method ApplyTable(table: bv8 -> bv8, buf: array<bv8>, off: nat)
    requires HasBlock(buf, off)
    modifies buf
    ensures BlockAt(buf, off) == MapBytes(table, old(BlockAt(buf, off)))
    ensures Around(buf, off) == old(Around(buf, off))
  {
    for i := 0 to BLOCK_BYTES
      invariant forall j | 0 <= j < i :: BlockAt(buf, off)[j] == table(old(BlockAt(buf, off))[j])
      invariant forall j | i <= j < BLOCK_BYTES :: BlockAt(buf, off)[j] == old(BlockAt(buf, off))[j]
      invariant Around(buf, off) == old(Around(buf, off))
    {
      buf[off + i] := table(buf[off + i]);
    }
  }

  method SubBytes(buf: array<bv8>, off: nat)
    requires HasBlock(buf, off)
    modifies buf
    ensures BlockAt(buf, off) == MapBytes(SBox, old(BlockAt(buf, off)))
    ensures Around(buf, off) == old(Around(buf, off))
  {
    ApplyTable(SBox, buf, off);
  }

  method InvSubBytes(buf: array<bv8>, off: nat)
    requires HasBlock(buf, off)
    modifies buf
    ensures BlockAt(buf, off) == MapBytes(InvSBox, old(BlockAt(buf, off)))
    ensures Around(buf, off) == old(Around(buf, off))
  {
    ApplyTable(InvSBox, buf, off);
  }

  /** Moves one row one column to the left. */
  method RotateRowLeft(buf: array<bv8>, off: nat, row: nat)
    requires HasBlock(buf, off) && row < 4
    modifies buf
    ensures Row(BlockAt(buf, off), row) == Left(old(Row(BlockAt(buf, off), row)), 1)
    ensures forall r | 0 <= r < 4 && r != row :: Row(BlockAt(buf, off), r) == old(Row(BlockAt(buf, off), r))
    ensures Around(buf, off) == old(Around(buf, off))
  {
    var x := buf[off + row];
    buf[off + row] := buf[off + row + 4];
    buf[off + row + 4] := buf[off + row + 8];
    buf[off + row + 8] := buf[off + row + 12];
    buf[off + row + 12] := x;
  }

  /** Moves one row one column to the right. */
  method RotateRowRight(buf: array<bv8>, off: nat, row: nat)
    requires HasBlock(buf, off) && row < 4
    modifies buf
    ensures Row(BlockAt(buf, off), row) == Left(old(Row(BlockAt(buf, off), row)), 3)
    ensures forall r | 0 <= r < 4 && r != row :: Row(BlockAt(buf, off), r) == old(Row(BlockAt(buf, off), r))
    ensures Around(buf, off) == old(Around(buf, off))
  {
    var x := buf[off + row];
    buf[off + row] := buf[off + row + 12];
    buf[off + row + 12] := buf[off + row + 8];
    buf[off + row + 8] := buf[off + row + 4];
    buf[off + row + 4] := x;
  }

  /** Moves one row two columns. */
  method SwapRow(buf: array<bv8>, off: nat, row: nat)
    requires HasBlock(buf, off) && row < 4
    modifies buf
    ensures Row(BlockAt(buf, off), row) == Left(old(Row(BlockAt(buf, off), row)), 2)
    ensures forall r | 0 <= r < 4 && r != row :: Row(BlockAt(buf, off), r) == old(Row(BlockAt(buf, off), r))
    ensures Around(buf, off) == old(Around(buf, off))
  {
    buf[off + row], buf[off + row + 8] := buf[off + row + 8], buf[off + row];
    buf[off + row + 4], buf[off + row + 12] := buf[off + row + 12], buf[off + row + 4];
  }

  method ShiftRowsInPlace(buf: array<bv8>, off: nat)
    requires HasBlock(buf, off)
    modifies buf
    ensures BlockAt(buf, off) == ShiftRows(old(BlockAt(buf, off)))
    ensures Around(buf, off) == old(Around(buf, off))
  {
    RotateRowLeft(buf, off, 1);
    SwapRow(buf, off, 2);
    RotateRowRight(buf, off, 3);
    forall row: nat | row < 4
      ensures Row(BlockAt(buf, off), row) == Row(ShiftRows(old(BlockAt(buf, off))), row)
    {
      ShiftRowsMovesRows(old(BlockAt(buf, off)), row);
    }
    SameRows(BlockAt(buf, off), ShiftRows(old(BlockAt(buf, off))));
  }

  method InvShiftRowsInPlace(buf: array<bv8>, off: nat)
    requires HasBlock(buf, off)
    modifies buf
    ensures BlockAt(buf, off) == InvShiftRows(old(BlockAt(buf, off)))
    ensures Around(buf, off) == old(Around(buf, off))
  {
    RotateRowRight(buf, off, 1);
    SwapRow(buf, off, 2);
    RotateRowLeft(buf, off, 3);
    forall row: nat | row < 4
      ensures Row(BlockAt(buf, off), row) == Row(InvShiftRows(old(BlockAt(buf, off))), row)
    {
      ShiftRowsMovesRows(old(BlockAt(buf, off)), row);
    }
    SameRows(BlockAt(buf, off), InvShiftRows(old(BlockAt(buf, off))));
  }

  /** `s` with `c` written over it from `off` on. */
  ghost function Put(s: Bytes, off: nat, c: Bytes): (r: Bytes)
    requires off + |c| <= |s|
    ensures |r| == |s|
  {
    s[..off] + c + s[off + |c|..]
  }

  /** Writing the next column of a block right after the first ones. */
  lemma PutNext(s: Bytes, off: nat, first: Bytes, second: Bytes)
    requires off + BLOCK_BYTES <= |s| && |first| + |second| <= BLOCK_BYTES
    ensures Put(Put(s, off, first), off + |first|, second) == Put(s, off, first + second)
  {
    var t := Put(s, off, first);
    assert t[..off + |first|] == s[..off] + first;
    assert t[off + |first| + |second|..] == s[off + |first + second|..];
  }

  /** Columns not yet written are still the old ones. */
  lemma PutKeeps(s: Bytes, off: nat, first: Bytes, k: nat)
    requires off + BLOCK_BYTES <= |s| && |first| <= k <= BLOCK_BYTES - 4
    ensures Put(s, off, first)[off + k..off + k + 4] == s[off..off + BLOCK_BYTES][k..k + 4]
  {
    var r := Put(s, off, first);
    var kept := r[off + k..off + k + 4];
    var block := s[off..off + BLOCK_BYTES];
    forall i | 0 <= i < 4
      ensures kept[i] == block[k..k + 4][i]
    {
      assert kept[i] == r[off + k + i] == s[off + k + i] == block[k + i];
    }
  }

  lemma PutBlock(s: Bytes, off: nat, b: Bytes)
    requires off + BLOCK_BYTES <= |s| && IsBlock(b)
    ensures Put(s, off, b)[off..off + BLOCK_BYTES] == b
    ensures Put(s, off, b)[..off] == s[..off]
    ensures Put(s, off, b)[off + BLOCK_BYTES..] == s[off + BLOCK_BYTES..]
  {}

  /** The column MixColumnsImpl stores, from its three work arrays. */
  ghost function SumRows(a1: Bytes, a2: Bytes, a3: Bytes): Bytes
    requires |a1| == |a2| == |a3| == 4
  {
    [Xor4(a2[0], a3[1], a1[2], a1[3]), Xor4(a2[1], a3[2], a1[3], a1[0]),
     Xor4(a2[2], a3[3], a1[0], a1[1]), Xor4(a2[3], a3[0], a1[1], a1[2])]
  }

  /** The first half of MixColumnsImpl: the column, its double and its triple. */
  method ColumnMultiples(column: array<bv8>, off: nat) returns (a1: Bytes, a2: Bytes, a3: Bytes)
    requires off + 4 <= column.Length
    ensures |a1| == |a2| == |a3| == 4
    ensures SumRows(a1, a2, a3) == MixColumn(column[off..off + 4])
  {
    a1, a2, a3 := [], [], [];
    for i := 0 to 4
      invariant a1 == column[off..off + i] && |a2| == |a3| == i
      invariant forall j | 0 <= j < i :: a2[j] == XTime(a1[j]) && a3[j] == Times3(a1[j])
    {
      var a := column[off + i];
      a1 := a1 + [a];
      a2 := a2 + [XTime(a)];
      a3 := a3 + [a2[i] ^ a];
    }
    MixColumnBytes(a1, a2, a3);
  }

  /** Each row of SumRows is the row of the matrix product. */
  lemma MixColumnBytes(a1: Bytes, a2: Bytes, a3: Bytes)
    requires |a1| == |a2| == |a3| == 4
    requires forall j | 0 <= j < 4 :: a2[j] == XTime(a1[j]) && a3[j] == Times3(a1[j])
    ensures SumRows(a1, a2, a3) == MixColumn(a1)
  {
    MixByteIsSum(a1[0], a1[1], a1[2], a1[3]);
    MixByteIsSum(a1[1], a1[2], a1[3], a1[0]);
    MixByteIsSum(a1[2], a1[3], a1[0], a1[1]);
    MixByteIsSum(a1[3], a1[0], a1[1], a1[2]);
  }

  /** The source adds the terms of each byte in column order; here the doubled one leads. */
  method MixColumnsImpl(column: array<bv8>, off: nat)
    requires off + 4 <= column.Length
    modifies column
    ensures column[..] == Put(old(column[..]), off, MixColumn(old(column[off..off + 4])))
  {
    var a1, a2, a3 := ColumnMultiples(column, off);
    StoreColumn(column, off, Xor4(a2[0], a3[1], a1[2], a1[3]), Xor4(a2[1], a3[2], a1[3], a1[0]),
                Xor4(a2[2], a3[3], a1[0], a1[1]), Xor4(a2[3], a3[0], a1[1], a1[2]));
  }

  ghost function InvSumRows(a9: Bytes, a11: Bytes, a13: Bytes, a14: Bytes): Bytes
    requires |a9| == |a11| == |a13| == |a14| == 4
  {
    [Xor4(a14[0], a11[1], a13[2], a9[3]), Xor4(a14[1], a11[2], a13[3], a9[0]),
     Xor4(a14[2], a11[3], a13[0], a9[1]), Xor4(a14[3], a11[0], a13[1], a9[2])]
  }

  /** One iteration of the loop of InvMixColumnsImpl. */
  method InverseMultiples(a: bv8) returns (a9: bv8, a11: bv8, a13: bv8, a14: bv8)
    ensures a9 == Times9(a) && a11 == Times11(a) && a13 == Times13(a) && a14 == Times14(a)
  {
    var a2 := XTime(a);
    var a4 := XTime(a2);
    a9 := XTime(a4) ^ a;
    a11 := XTime(a4 ^ a) ^ a;
    var a6 := XTime(a2 ^ a);
    a13 := XTime(a6) ^ a;
    a14 := XTime(a6 ^ a);
  }

  lemma MapBytesAppend(f: bv8 -> bv8, s: Bytes, x: bv8)
    ensures MapBytes(f, s + [x]) == MapBytes(f, s) + [f(x)]
  {}

  /** The loop of InvMixColumnsImpl: the column times 9, 11, 13 and 14. */
  method InverseColumnMultiples(column: array<bv8>, off: nat)
    returns (a9: Bytes, a11: Bytes, a13: Bytes, a14: Bytes)
    requires off + 4 <= column.Length
    ensures var c := column[off..off + 4];
            a9 == MapBytes(Times9, c) && a11 == MapBytes(Times11, c) && a13 == MapBytes(Times13, c) &&
            a14 == MapBytes(Times14, c)
  {
    a9, a11, a13, a14 := [], [], [], [];
    for i := 0 to 4
      invariant a9 == MapBytes(Times9, column[off..off + i]) && a11 == MapBytes(Times11, column[off..off + i])
      invariant a13 == MapBytes(Times13, column[off..off + i]) && a14 == MapBytes(Times14, column[off..off + i])
    {
      var m9, m11, m13, m14 := InverseMultiples(column[off + i]);
      a9, a11, a13, a14 := a9 + [m9], a11 + [m11], a13 + [m13], a14 + [m14];
      MapBytesAppend(Times9, column[off..off + i], column[off + i]);
      MapBytesAppend(Times11, column[off..off + i], column[off + i]);
      MapBytesAppend(Times13, column[off..off + i], column[off + i]);
      MapBytesAppend(Times14, column[off..off + i], column[off + i]);
      assert column[off..off + i] + [column[off + i]] == column[off..off + i + 1];
    }
  }

  lemma InvMixColumnBytes(c: Bytes, a9: Bytes, a11: Bytes, a13: Bytes, a14: Bytes)
    requires |c| == 4
    requires a9 == MapBytes(Times9, c) && a11 == MapBytes(Times11, c)
    requires a13 == MapBytes(Times13, c) && a14 == MapBytes(Times14, c)
    ensures InvSumRows(a9, a11, a13, a14) == InvMixColumn(c)
  {
    InvMixByteIsSum(c[0], c[1], c[2], c[3]);
    InvMixByteIsSum(c[1], c[2], c[3], c[0]);
    InvMixByteIsSum(c[2], c[3], c[0], c[1]);
    InvMixByteIsSum(c[3], c[0], c[1], c[2]);
  }

  /** Stores the four bytes of a column. */
  method StoreColumn(column: array<bv8>, off: nat, c0: bv8, c1: bv8, c2: bv8, c3: bv8)
    requires off + 4 <= column.Length
    modifies column
    ensures column[..] == Put(old(column[..]), off, [c0, c1, c2, c3])
  {
    column[off] := c0;
    column[off + 1] := c1;
    column[off + 2] := c2;
    column[off + 3] := c3;
  }

  method InvMixColumnsImpl(column: array<bv8>, off: nat)
    requires off + 4 <= column.Length
    modifies column
    ensures column[..] == Put(old(column[..]), off, InvMixColumn(old(column[off..off + 4])))
  {
    var a9, a11, a13, a14 := InverseColumnMultiples(column, off);
    InvMixColumnBytes(column[off..off + 4], a9, a11, a13, a14);
    StoreColumn(column, off, Xor4(a14[0], a11[1], a13[2], a9[3]), Xor4(a14[1], a11[2], a13[3], a9[0]),
                Xor4(a14[2], a11[3], a13[0], a9[1]), Xor4(a14[3], a11[0], a13[1], a9[2]));
  }

  method MixColumnsInPlace(buf: array<bv8>, off: nat)
    requires HasBlock(buf, off)
    modifies buf
    ensures BlockAt(buf, off) == MixColumns(old(BlockAt(buf, off)))
    ensures Around(buf, off) == old(Around(buf, off))
  {
    hide MixColumn, Put;
    ghost var s, b := buf[..], BlockAt(buf, off);
    ghost var m0, m1 := MixColumn(b[0..4]), MixColumn(b[4..8]);
    ghost var m2, m3 := MixColumn(b[8..12]), MixColumn(b[12..16]);
    assert s[off..off + 4] == b[0..4];
    MixColumnsImpl(buf, off);
    PutKeeps(s, off, m0, 4);
    MixColumnsImpl(buf, off + 4);
    PutNext(s, off, m0, m1);
    PutKeeps(s, off, m0 + m1, 8);
    MixColumnsImpl(buf, off + 8);
    PutNext(s, off, m0 + m1, m2);
    PutKeeps(s, off, m0 + m1 + m2, 12);
    MixColumnsImpl(buf, off + 12);
    PutNext(s, off, m0 + m1 + m2, m3);
    PutBlock(s, off, m0 + m1 + m2 + m3);
  }

  method InvMixColumnsInPlace(buf: array<bv8>, off: nat)
    requires HasBlock(buf, off)
    modifies buf
    ensures BlockAt(buf, off) == InvMixColumns(old(BlockAt(buf, off)))
    ensures Around(buf, off) == old(Around(buf, off))
  {
    hide InvMixColumn, Put;
    ghost var s, b := buf[..], BlockAt(buf, off);
    ghost var m0, m1 := InvMixColumn(b[0..4]), InvMixColumn(b[4..8]);
    ghost var m2, m3 := InvMixColumn(b[8..12]), InvMixColumn(b[12..16]);
    assert s[off..off + 4] == b[0..4];
    InvMixColumnsImpl(buf, off);
    PutKeeps(s, off, m0, 4);
    InvMixColumnsImpl(buf, off + 4);
    PutNext(s, off, m0, m1);
    PutKeeps(s, off, m0 + m1, 8);
    InvMixColumnsImpl(buf, off + 8);
    PutNext(s, off, m0 + m1, m2);
    PutKeeps(s, off, m0 + m1 + m2, 12);
    InvMixColumnsImpl(buf, off + 12);
    PutNext(s, off, m0 + m1 + m2, m3);
    PutBlock(s, off, m0 + m1 + m2 + m3);
  }

  method TransformECB(w: array<bv8>, buf: array<bv8>, off: nat)
    requires w.Length == KEY_SCHEDULE_BYTES && HasBlock(buf, off) && w != buf
    modifies buf
    ensures BlockAt(buf, off) == EncryptBlock(w[..], old(BlockAt(buf, off)))
    ensures Around(buf, off) == old(Around(buf, off))
  {
    hide MixColumns, ShiftRows, MapBytes, Xor;
    AddRoundKey(buf, off, w, 0);
    for round := 1 to ROUNDS
      invariant BlockAt(buf, off) == Rounds(w[..], old(BlockAt(buf, off)), round - 1)
      invariant Around(buf, off) == old(Around(buf, off))
    {
      SubBytes(buf, off);
      ShiftRowsInPlace(buf, off);
      MixColumnsInPlace(buf, off);
      AddRoundKey(buf, off, w, BLOCK_BYTES * round);
    }
    SubBytes(buf, off);
    ShiftRowsInPlace(buf, off);
    AddRoundKey(buf, off, w, BLOCK_BYTES * ROUNDS);
  }

  method InverseTransformECB(w: array<bv8>, buf: array<bv8>, off: nat)
    requires w.Length == KEY_SCHEDULE_BYTES && HasBlock(buf, off) && w != buf
    modifies buf
    ensures BlockAt(buf, off) == DecryptBlock(w[..], old(BlockAt(buf, off)))
    ensures Around(buf, off) == old(Around(buf, off))
  {
    hide InvMixColumns, InvShiftRows, MapBytes, Xor;
    AddRoundKey(buf, off, w, BLOCK_BYTES * ROUNDS);
    InvShiftRowsInPlace(buf, off);
    InvSubBytes(buf, off);
    var round := ROUNDS - 1;
    while round > 0
      invariant 0 <= round < ROUNDS
      invariant InvRounds(w[..], BlockAt(buf, off), round) == DecryptBlock(w[..], old(BlockAt(buf, off)))
      invariant Around(buf, off) == old(Around(buf, off))
    {
      AddRoundKey(buf, off, w, BLOCK_BYTES * round);
      InvMixColumnsInPlace(buf, off);
      InvShiftRowsInPlace(buf, off);
      InvSubBytes(buf, off);
      round := round - 1;
    }
    AddRoundKey(buf, off, w, 0);
  }
}
