/**
 MakeKeySchedule of src/base/unverified_aes256.cc: the byte loops that fill the 240-byte
 schedule, against the word recursion of section 5.2 of FIPS 197.
 */
module AesKeySchedule {
  import opened AesField
  import opened AesRounds
  import opened AesTables

  /** x^(j-1) in GF(2^8). */
  function Rcon(j: nat): (r: bv8)
    requires 1 <= j
  {
    if j == 1 then 1 else XTime(Rcon(j - 1))
  }

  function SubWord(t: Bytes): (r: Bytes)
    requires |t| == 4
    ensures |r| == 4
  {
    MapBytes(SBox, t)
  }

  function RotWord(t: Bytes): (r: Bytes)
    requires |t| == 4
    ensures |r| == 4
  {
    t[1..] + t[..1]
  }

  /** Word i of the key expansion for eight-word keys. */
  function KeyWord(key: Bytes, i: nat): (r: Bytes)
    requires |key| == KEY_BYTES
    ensures |r| == 4
  {
    if i < 8 then key[4 * i..4 * i + 4]
    else
      var prev := KeyWord(key, i - 1);
      var temp :=
        if i % 8 == 0 then Xor(SubWord(RotWord(prev)), [Rcon(i / 8), 0, 0, 0])
        else if i % 8 == 4 then SubWord(prev)
        else prev;
      Xor(KeyWord(key, i - 8), temp)
  }

  function KeyByte(key: Bytes, n: nat): bv8
    requires |key| == KEY_BYTES
  {
    KeyWord(key, n / 4)[n % 4]
  }

  /** The whole schedule: the sixty words one after another. */
  function KeySchedule(key: Bytes): (w: Bytes)
    requires |key| == KEY_BYTES
    ensures IsSchedule(w)
  {
    seq(KEY_SCHEDULE_BYTES, n requires 0 <= n < KEY_SCHEDULE_BYTES => KeyByte(key, n))
  }

  lemma KeyByteOfWord(key: Bytes, i: nat, r: nat)
    requires |key| == KEY_BYTES && r < 4
    ensures KeyByte(key, 4 * i + r) == KeyWord(key, i)[r]
  {
    assert (4 * i + r) / 4 == i && (4 * i + r) % 4 == r;
  }

  /** Only the first byte of a chunk gets the round constant. */
  function WithRcon(b: nat, s: bv8, base: nat): bv8
    requires 1 <= base
  {
    if b == 0 then Add(s, Rcon(base)) else s
  }

  lemma AddZero(a: bv8)
    ensures Add(a, 0) == a
  {}

  lemma StartWord(key: Bytes, base: nat)
    requires |key| == KEY_BYTES && 1 <= base
    ensures KeyWord(key, 8 * base)
         == Xor(KeyWord(key, 8 * base - 8), Xor(SubWord(RotWord(KeyWord(key, 8 * base - 1))), [Rcon(base), 0, 0, 0]))
  {
    hide KeyWord, Xor, SubWord, RotWord, Rcon;
    EighthWord(key, 8 * base);
    assert 8 * base / 8 == base;
  }

  lemma EighthWord(key: Bytes, i: nat)
    requires |key| == KEY_BYTES && i >= 8 && i % 8 == 0
    ensures KeyWord(key, i)
         == Xor(KeyWord(key, i - 8), Xor(SubWord(RotWord(KeyWord(key, i - 1))), [Rcon(i / 8), 0, 0, 0]))
  {
    hide Xor, SubWord, RotWord, Rcon;
  }

  lemma MiddleWord(key: Bytes, base: nat)
    requires |key| == KEY_BYTES && 1 <= base
    ensures KeyWord(key, 8 * base + 4) == Xor(KeyWord(key, 8 * base - 4), SubWord(KeyWord(key, 8 * base + 3)))
  {
    hide Xor, SubWord, RotWord, Rcon;
  }

  lemma RotatedByte(t: Bytes, b: nat)
    requires |t| == 4 && b < 4
    ensures SubWord(RotWord(t))[b] == SBox(t[(b + 1) % 4])
  {
    hide SBox;
  }

  /** Bytes of the word that starts a 32-byte chunk. */
  lemma ChunkStart(key: Bytes, base: nat, b: nat)
    requires |key| == KEY_BYTES && 1 <= base && b < 4
    ensures KeyByte(key, 32 * base + b)
         == Add(KeyByte(key, 32 * base + b - 32),
                WithRcon(b, SBox(KeyByte(key, 32 * base - 4 + (b + 1) % 4)), base))
  {
    hide SBox, KeyByte, KeyWord, SubWord, RotWord, Add, Rcon;
    var prev := KeyWord(key, 8 * base - 1);
    StartWord(key, base);
    RotatedByte(prev, b);
    AddZero(SBox(prev[(b + 1) % 4]));
    KeyByteOfWord(key, 8 * base, b);
    KeyByteOfWord(key, 8 * base - 8, b);
    KeyByteOfWord(key, 8 * base - 1, (b + 1) % 4);
  }

  /** Bytes of the word in the middle of a chunk. */
  lemma ChunkMiddle(key: Bytes, base: nat, b: nat)
    requires |key| == KEY_BYTES && 1 <= base && 16 <= b < 20
    ensures KeyByte(key, 32 * base + b)
         == Add(KeyByte(key, 32 * base + b - 32), SBox(KeyByte(key, 32 * base + b - 4)))
  {
    hide SBox, KeyByte, KeyWord, RotWord, Add, Rcon;
    MiddleWord(key, base);
    KeyByteOfWord(key, 8 * base + 4, b - 16);
    KeyByteOfWord(key, 8 * base - 4, b - 16);
    KeyByteOfWord(key, 8 * base + 3, b - 16);
  }

  /** Bytes of the other words. */
  lemma ChunkOther(key: Bytes, base: nat, b: nat)
    requires |key| == KEY_BYTES && 1 <= base && (4 <= b < 16 || 20 <= b < 32)
    ensures KeyByte(key, 32 * base + b) == Add(KeyByte(key, 32 * base + b - 32), KeyByte(key, 32 * base + b - 4))
  {
    hide KeyByte, KeyWord, Add;
    var w, r := b / 4, b % 4;
    assert w != 4 && 1 <= w < 8;
    var i := 8 * base + w;
    KeyByteOfWord(key, i, r);
    KeyByteOfWord(key, i - 8, r);
    KeyByteOfWord(key, i - 1, r);
    assert i % 8 == w;
    PlainWord(key, i);
  }

  lemma PlainWord(key: Bytes, i: nat)
    requires |key| == KEY_BYTES && 8 <= i && i % 8 != 0 && i % 8 != 4
    ensures KeyWord(key, i) == Xor(KeyWord(key, i - 8), KeyWord(key, i - 1))
  {
    hide Xor, SubWord, RotWord, Rcon;
  }

  /** Shifting 1 gives the round constants as long as they fit in a byte without reduction. */
  lemma RconIsShift(base: nat)
    requires 1 <= base <= 7
    ensures 1 << (base - 1) == Rcon(base)
  {}

  ghost predicate Filled(key: Bytes, w: array<bv8>, n: nat)
    requires |key| == KEY_BYTES && w.Length == KEY_SCHEDULE_BYTES && n <= KEY_SCHEDULE_BYTES
    reads w
  {
    forall k | 0 <= k < n :: w[k] == KeyByte(key, k)
  }

  method MakeKeySchedule(key: Bytes, w: array<bv8>)
    requires |key| == KEY_BYTES && w.Length == KEY_SCHEDULE_BYTES
    modifies w
    ensures w[..] == KeySchedule(key)
  {
    hide SBox, KeyWord, KeyByte, Rcon, Add;
    for i := 0 to KEY_BYTES
      invariant Filled(key, w, i)
    {
      w[i] := key[i];
      FirstBytes(key, i);
    }
    var base := 1;
    while true
      invariant 1 <= base <= 7
      invariant Filled(key, w, 32 * base)
      decreases 7 - base
    {
      var k := base * KEY_BYTES;
      var rcon: bv8 := 1 << (base - 1);
      RconIsShift(base);
      FillStart(key, w, base, rcon);
      FillPlain(key, w, base, 4, 16);
      if base == 7 {
        break;
      }
      for i := 16 to 20
        invariant Filled(key, w, k + i)
      {
        w[k + i] := Add(w[k + i - 32], SBox(w[k + i - 4]));
        ChunkMiddle(key, base, i);
      }
      FillPlain(key, w, base, 20, 32);
      base := base + 1;
    }
  }

  lemma FirstBytes(key: Bytes, n: nat)
    requires |key| == KEY_BYTES && n < KEY_BYTES
    ensures KeyByte(key, n) == key[n]
  {
    assert 4 * (n / 4) + n % 4 == n;
  }

  /** The four bytes at the start of a chunk. */
  method FillStart(key: Bytes, w: array<bv8>, base: nat, rcon: bv8)
    requires |key| == KEY_BYTES && w.Length == KEY_SCHEDULE_BYTES
    requires 1 <= base <= 7 && rcon == Rcon(base) && Filled(key, w, 32 * base)
    modifies w
    ensures Filled(key, w, 32 * base + 4)
  {
    hide SBox, KeyWord, KeyByte, Rcon, Add;
    var k := base * KEY_BYTES;
    ChunkStart(key, base, 0);
    ChunkStart(key, base, 1);
    ChunkStart(key, base, 2);
    ChunkStart(key, base, 3);
    w[k] := Add(w[k - 32], Add(SBox(w[k - 3]), rcon));
    w[k + 1] := Add(w[k - 31], SBox(w[k - 2]));
    w[k + 2] := Add(w[k - 30], SBox(w[k - 1]));
    w[k + 3] := Add(w[k - 29], SBox(w[k - 4]));
  }

  /** The two loops that add the previous word and the word one chunk back. */
  method FillPlain(key: Bytes, w: array<bv8>, base: nat, from: nat, to: nat)
    requires |key| == KEY_BYTES && w.Length == KEY_SCHEDULE_BYTES
    requires 1 <= base && (4 <= from <= to <= 16 || 20 <= from <= to <= 32) && 32 * base + to <= KEY_SCHEDULE_BYTES
    requires Filled(key, w, 32 * base + from)
    modifies w
    ensures Filled(key, w, 32 * base + to)
  {
    hide KeyByte, Add;
    var k := base * KEY_BYTES;
    for i := from to to
      invariant Filled(key, w, k + i)
    {
      w[k + i] := Add(w[k + i - 32], w[k + i - 4]);
      ChunkOther(key, base, i);
    }
  }

  /** Byte `n` of the schedule before it is added to the byte 32 places earlier, from the bytes `w` before it. */
  function Temporary(w: Bytes, n: nat): bv8
    requires 32 <= n < 240 <= |w|
  {
    if n % 32 == 0 then Add(SBox(w[n - 3]), 1 << (n / 32 - 1))
    else if n % 32 < 3 then SBox(w[n - 3])
    else if n % 32 == 3 then SBox(w[n - 7])
    else if 16 <= n % 32 < 20 then SBox(w[n - 4])
    else w[n - 4]
  }

  /** The whole schedule, byte by byte: the key, then each byte from the one 32 places and those just before it. */
  lemma ScheduleWrittenOut(key: Bytes, n: nat)
    requires |key| == 32 && n < 240
    ensures var w := KeySchedule(key);
            |w| == 240 && w[n] == if n < 32 then key[n] else Add(w[n - 32], Temporary(w, n))
  {
    hide KeyByte, KeyWord, Rcon, Add, SBox;
    if n < 32 {
      FirstBytes(key, n);
    } else {
      var base, b := n / 32, n % 32;
      RconIsShift(base);
      if b < 4 {
        ChunkStart(key, base, b);
      } else if 16 <= b < 20 {
        ChunkMiddle(key, base, b);
      } else {
        ChunkOther(key, base, b);
      }
    }
  }
}
