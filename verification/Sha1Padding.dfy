/** The padding of a message in src/base/unverified_sha1.cc, produced block by block. */
module Sha1Padding {

  newtype Byte = x: int | 0 <= x < 256

  const BLOCK := 64
  const WORD := 0x1_0000_0000_0000_0000

  // ---------------------------------------------------------------------------
  // The padding of section 5.1.1 of FIPS 180-4, in bytes
  // ---------------------------------------------------------------------------

  function Zeros(n: nat): seq<Byte> {
    seq(n, i => 0 as Byte)
  }

  /** The `width` low bytes of `n`, the highest first. */
  function BigEndian(n: nat, width: nat): (s: seq<Byte>)
    ensures |s| == width
  {
    if width == 0 then [] else BigEndian(n / 256, width - 1) + [(n % 256) as Byte]
  }

  function BigEndianValue(s: seq<Byte>): nat {
    if s == [] then 0 else BigEndianValue(s[..|s| - 1]) * 256 + s[|s| - 1] as nat
  }

  function Power256(n: nat): (p: nat)
    ensures p > 0
  {
    if n == 0 then 1 else 256 * Power256(n - 1)
  }

  lemma {:induction false} BigEndianReadsBack(n: nat, width: nat)
    ensures BigEndianValue(BigEndian(n, width)) == n % Power256(width)
    decreases width
  {
    if width > 0 {
      BigEndianReadsBack(n / 256, width - 1);
      var s := BigEndian(n, width);
      assert s[..|s| - 1] == BigEndian(n / 256, width - 1);
      ModSplit(n, Power256(width - 1));
    }
  }

  lemma ModSplit(n: nat, p: nat)
    requires p > 0
    ensures n % (256 * p) == (n / 256) % p * 256 + n % 256
  {
    var q, r := n / 256, n % 256;
    var k := q / p;
    assert n == k * (256 * p) + (q % p * 256 + r) by {
      assert q == k * p + q % p;
      assert 256 * (k * p) == k * (256 * p);
    }
    Remainder(n, 256 * p, k, q % p * 256 + r);
  }

  lemma Remainder(n: nat, d: nat, k: nat, r: nat)
    requires d > 0 && n == k * d + r && r < d
    ensures n % d == r
  {
    var q := n / d;
    assert n == q * d + n % d;
    if q < k {
      Less(q, k, d);
    } else if k < q {
      Less(k, q, d);
    }
  }

  lemma {:induction false} Less(a: nat, b: nat, d: nat)
    requires a < b
    ensures a * d + d <= b * d
    decreases b
  {
    if a + 1 < b {
      Less(a, b - 1, d);
    }
  }

  /** The fewest zero bytes that make room for the length at the end of a block. */
  function Gap(n: nat): nat {
    (55 - n) % 64
  }

  /** The bit length as the program computes it, in 64 bits. */
  function BitLength(n: nat): nat {
    n * 8 % WORD
  }

  function Padded(m: seq<Byte>): seq<Byte> {
    m + [0x80] + Zeros(Gap(|m|)) + BigEndian(BitLength(|m|), 8)
  }

  function Block(s: seq<Byte>, i: nat): seq<Byte>
    requires 64 * i + 64 <= |s|
  {
    s[64 * i..64 * i + 64]
  }

  /** GetTotalMessageCount, in 64-bit arithmetic. */
  function TotalMessageCount(n: nat): nat {
    (n + 9 + 63) % WORD / BLOCK
  }

  /** The number of zero bytes is the smallest that fills whole blocks. */
  lemma GapIsSmallest(n: nat, k: nat)
    ensures (n + 1 + Gap(n) + 8) % 64 == 0
    ensures (n + 1 + k + 8) % 64 == 0 ==> Gap(n) <= k
  {
    GapFills(n);
  }

  lemma GapFills(n: nat)
    ensures n + 9 + Gap(n) == 64 * ((n + 72) / 64) && Gap(n) < 64
  {
    var d := (55 - n) / 64;
    assert 55 - n == 64 * d + Gap(n);
    assert n + 72 == 64 * (1 - d) + (63 - Gap(n));
  }

  lemma PaddedLength(m: seq<Byte>)
    ensures |Padded(m)| == 64 * ((|m| + 72) / 64)
  {
    GapFills(|m|);
  }

  /** The padded message is the message, 0x80, zeros, and the bit length in the last eight bytes. */
  lemma PaddingBytes(m: seq<Byte>, k: nat)
    requires k < |Padded(m)|
    ensures |m| + 9 <= |Padded(m)| <= |m| + 72
    ensures k < |m| ==> Padded(m)[k] == m[k]
    ensures k == |m| ==> Padded(m)[k] == 0x80
    ensures |m| < k < |Padded(m)| - 8 ==> Padded(m)[k] == 0
    ensures BigEndianValue(Padded(m)[|Padded(m)| - 8..]) == |m| * 8 % 0x1_0000_0000_0000_0000
  {
    hide BigEndian, BigEndianValue, Gap;
    GapFills(|m|);
    BigEndianReadsBack(BitLength(|m|), 8);
    WordPower();
    assert Padded(m)[|Padded(m)| - 8..] == BigEndian(BitLength(|m|), 8);
  }

  /** There are exactly as many blocks as the padded message fills if and only if the sizes do not overflow. */
  lemma CountIsExact(m: seq<Byte>)
    requires |m| < WORD
    ensures |Padded(m)| == 64 * TotalMessageCount(|m|) <==> |m| + 72 < WORD
  {
    hide Padded;
    PaddedLength(m);
    if |m| + 72 >= WORD {
      CountOverflows(|m|);
    }
  }

  lemma CountFits(m: seq<Byte>)
    requires |m| < WORD
    ensures 64 * TotalMessageCount(|m|) <= |Padded(m)|
  {
    hide Padded;
    PaddedLength(m);
    if |m| + 72 >= WORD {
      CountOverflows(|m|);
    }
  }

  /** When they do, there is no block at all, or just one for the eight largest sizes. */
  lemma CountOverflows(n: nat)
    requires n < WORD <= n + 72
    ensures TotalMessageCount(n) == if n < WORD - 8 then 0 else 1
  {
    assert (n + 72) % WORD == n + 72 - WORD;
  }

  /** The last eight bytes are the bit length of the message if and only if it is shorter than 2^61 bytes. */
  lemma LengthIsExact(m: seq<Byte>)
    ensures BigEndianValue(Padded(m)[|Padded(m)| - 8..]) == 8 * |m| <==> |m| < 0x2000_0000_0000_0000
  {
    assert Padded(m)[|Padded(m)| - 8..] == BigEndian(BitLength(|m|), 8);
    hide Padded, BigEndian, BigEndianValue;
    BigEndianReadsBack(BitLength(|m|), 8);
    WordPower();
    hide Power256;
    WrappedLength(|m|);
  }

  lemma WordPower()
    ensures Power256(8) == WORD
  {
    assert Power256(4) == 0x1_0000_0000;
    assert Power256(6) == 0x1_0000_0000_0000;
  }

  lemma WrappedLength(n: nat)
    ensures BitLength(n) % WORD == 8 * n <==> n < 0x2000_0000_0000_0000
  {}

  // ---------------------------------------------------------------------------
  // The three kinds of block
  // ---------------------------------------------------------------------------

  lemma WholeBlock(m: seq<Byte>, i: nat)
    requires 64 * i + 64 <= |m|
    ensures 64 * i + 64 <= |Padded(m)| && Block(Padded(m), i) == m[64 * i..64 * i + 64]
  {
    hide BigEndian;
    assert Padded(m)[..|m|] == m;
  }

  /** The block that the message ends in, which is empty of message bytes when the message fills its blocks. */
  lemma MarkerBlock(m: seq<Byte>, i: nat)
    requires 64 * i <= |m| < 64 * i + 64
    ensures 64 * i + 64 <= |Padded(m)|
    ensures var rest := |m| - 64 * i;
            Block(Padded(m), i) ==
            if rest < 56 then m[64 * i..] + [0x80] + Zeros(55 - rest) + BigEndian(BitLength(|m|), 8)
            else m[64 * i..] + [0x80] + Zeros(63 - rest)
  {
    hide BigEndian;
    var rest := |m| - 64 * i;
    GapFills(|m|);
    assert Gap(|m|) == if rest < 56 then 55 - rest else 119 - rest;
  }

  lemma LengthBlockStarts(n: nat, i: nat)
    requires n < 64 * i && 64 * i + 64 <= n + 9 + Gap(n)
    ensures n + 1 + Gap(n) == 64 * i + 56
  {
    GapFills(n);
  }

  /** The block after the message, when the length did not fit into the one before. */
  lemma LengthBlock(m: seq<Byte>, i: nat)
    requires |m| < 64 * i && 64 * i + 64 <= |Padded(m)|
    ensures Block(Padded(m), i) == Zeros(56) + BigEndian(BitLength(|m|), 8)
  {
    hide BigEndian, BitLength, Gap;
    LengthBlockStarts(|m|, i);
    var p, front, length := Padded(m), m + [0x80] + Zeros(Gap(|m|)), BigEndian(BitLength(|m|), 8);
    assert |p| == 64 * i + 64 && |front| == 64 * i + 56 && p == front + length;
    hide Padded;
    assert p[64 * i + 56..] == length;
    forall k | 64 * i <= k < 64 * i + 56
      ensures p[k] == 0
    {
      assert p[k] == front[k];
    }
    assert Block(p, i) == p[64 * i..64 * i + 56] + p[64 * i + 56..];
  }

  /** What a block holds of the message and its end marker, when the message does not fill it. */
  function Head(m: seq<Byte>, i: nat): seq<Byte>
    requires |m| < 64 * i + 64
  {
    if |m| < 64 * i then [] else m[64 * i..] + [0x80]
  }

  /** Such a block is filled with zeros, and with the length when there is room for it. */
  lemma LateBlock(m: seq<Byte>, i: nat)
    requires |m| < 64 * i + 64 <= |Padded(m)|
    ensures var head := Head(m, i);
            Block(Padded(m), i) ==
            if |head| > 56 then head + Zeros(64 - |head|)
            else head + Zeros(56 - |head|) + BigEndian(BitLength(|m|), 8)
  {
    hide BigEndian, Padded, BitLength;
    if |m| < 64 * i {
      LengthBlock(m, i);
    } else {
      MarkerBlock(m, i);
    }
  }

  // ---------------------------------------------------------------------------
  // PaddedMessageIterator
  // ---------------------------------------------------------------------------

  class PaddedMessageIterator {
    const source: seq<Byte>
    const numTotalMessage: nat
    var messageIndex: nat

    constructor (source: seq<Byte>)
      ensures this.source == source && numTotalMessage == TotalMessageCount(|source|) && messageIndex == 0
    {
      this.source := source;
      numTotalMessage := TotalMessageCount(|source|);
      messageIndex := 0;
    }

    predicate HasMessage()
      reads this
    {
      messageIndex < numTotalMessage
    }

    /** Fills `dest` with the next block of the padded message. */
    method FillNextMessage(dest: array<Byte>)
      requires dest.Length == BLOCK && |source| < WORD && HasMessage()
      requires numTotalMessage == TotalMessageCount(|source|)
      modifies dest
      ensures 64 * messageIndex + 64 <= |Padded(source)|
      ensures dest[..] == Block(Padded(source), messageIndex)
    {
      CountFits(source);
      hide Padded, Block, BigEndian, TotalMessageCount, BitLength, Zeros;
      var baseIndex := messageIndex * BLOCK;
      var cursor := 0;
      if baseIndex < |source| {
        var rest := |source| - baseIndex;
        if rest >= BLOCK {
          WholeBlock(source, messageIndex);
          Copy(source[baseIndex..baseIndex + BLOCK], dest, 0);
          assert dest[..] == dest[..64];
          return;
        }
        Copy(source[baseIndex..], dest, 0);
        cursor := rest;
      }
      if baseIndex + cursor == |source| {
        dest[cursor] := 0x80;
        cursor := cursor + 1;
      }
      assert dest[..cursor] == Head(source, messageIndex);
      LateBlock(source, messageIndex);
      FillRest(dest, cursor);
    }

    /** The end of FillNextMessage: zeros after the end marker, and the length when it fits. */
    method FillRest(dest: array<Byte>, cursor: nat)
      requires dest.Length == BLOCK && cursor <= BLOCK
      modifies dest
      ensures dest[..] ==
              if cursor > 56 then old(dest[..cursor]) + Zeros(64 - cursor)
              else old(dest[..cursor]) + Zeros(56 - cursor) + BigEndian(BitLength(|source|), 8)
    {
      hide BigEndian, BitLength, Zeros;
      if cursor > 56 {
        Fill(dest, cursor, BLOCK);
        assert dest[..] == dest[..64];
        return;
      }
      Fill(dest, cursor, 56);
      Copy(BigEndian(BitLength(|source|), 8), dest, 56);
      assert dest[..] == dest[..64];
    }

    method MoveNext()
      modifies this
      ensures messageIndex == old(messageIndex) + 1
    {
      messageIndex := messageIndex + 1;
    }
  }

  /** Copies `s` into `dest` from `at` on. */
  method Copy(s: seq<Byte>, dest: array<Byte>, at: nat)
    requires at + |s| <= dest.Length
    modifies dest
    ensures dest[..at + |s|] == old(dest[..at]) + s && dest[at + |s|..] == old(dest[at + |s|..])
  {
    for i := 0 to |s|
      invariant dest[..at + i] == old(dest[..at]) + s[..i] && dest[at + i..] == old(dest[at + i..])
    {
      dest[at + i] := s[i];
    }
  }

  /** Writes zeros into `dest` from `from` to `to`. */
  method Fill(dest: array<Byte>, from: nat, to: nat)
    requires from <= to <= dest.Length
    modifies dest
    ensures dest[..to] == old(dest[..from]) + Zeros(to - from) && dest[to..] == old(dest[to..])
  {
    for i := from to to
      invariant dest[..i] == old(dest[..from]) + Zeros(i - from) && dest[i..] == old(dest[i..])
    {
      dest[i] := 0;
    }
  }

  // ---------------------------------------------------------------------------
  // The loop of MakeDigestImpl
  // ---------------------------------------------------------------------------

  function Concat(blocks: seq<seq<Byte>>): seq<Byte> {
    if blocks == [] then [] else Concat(blocks[..|blocks| - 1]) + blocks[|blocks| - 1]
  }

  lemma ConcatOneMore(blocks: seq<seq<Byte>>, s: seq<Byte>, i: nat)
    requires 64 * i + 64 <= |s| && Concat(blocks) == s[..64 * i]
    ensures Concat(blocks + [Block(s, i)]) == s[..64 * i + 64]
  {
    assert (blocks + [Block(s, i)])[..|blocks|] == blocks;
  }

  /**
   The blocks that the loop compresses are, one after another, the first blocks of the padded
   message, and they are all of it if and only if the sizes do not overflow.
   */
  method MessageBlocks(source: seq<Byte>) returns (blocks: seq<seq<Byte>>)
    requires |source| < WORD
    ensures |blocks| == TotalMessageCount(|source|) && forall i | 0 <= i < |blocks| :: |blocks[i]| == BLOCK
    ensures Concat(blocks) <= Padded(source)
    ensures Concat(blocks) == Padded(source) <==> |source| + 72 < WORD
  {
    CountIsExact(source);
    CountFits(source);
    ghost var padded := Padded(source);
    hide TotalMessageCount, Padded;
    blocks := [];
    var it := new PaddedMessageIterator(source);
    var message := new Byte[BLOCK];
    while it.HasMessage()
      invariant fresh(it) && fresh(message) && it.source == source
      invariant it.numTotalMessage == TotalMessageCount(|source|)
      invariant |blocks| == it.messageIndex <= it.numTotalMessage
      invariant forall i | 0 <= i < |blocks| :: |blocks[i]| == BLOCK
      invariant Concat(blocks) == padded[..64 * it.messageIndex]
      decreases it.numTotalMessage - it.messageIndex
    {
      it.FillNextMessage(message);
      ConcatOneMore(blocks, padded, it.messageIndex);
      blocks := blocks + [message[..]];
      it.MoveNext();
    }
    assert padded[..|padded|] == padded;
  }
}
