/** The UTF-8 encoder and decoder of src/base/util.cc (the sequences of one to six bytes of RFC 2279). */
module Utf8 {
  import opened Options

  type Byte = bv8
  type Char32 = bv32

  // ---------------------------------------------------------------------------
  // Decoding
  // ---------------------------------------------------------------------------

  predicate IsTrailing(b: Byte) {
    b & 0xc0 == 0x80
  }

  /** How long the sequence is that the leading byte starts; 0 when no sequence starts with it. */
  function SequenceLength(b: Byte): nat {
    if b < 0x80 then 1
    else if IsTrailing(b) then 0
    else if b & 0xe0 == 0xc0 then 2
    else if b & 0xf0 == 0xe0 then 3
    else if b & 0xf8 == 0xf0 then 4
    else if b & 0xfc == 0xf8 then 5
    else if b & 0xfe == 0xfc then 6
    else 0
  }

  /** The bits of the codepoint that the leading byte carries. */
  function LeadingBits(b: Byte): Char32 {
    if b < 0x80 then b as Char32
    else if b & 0xe0 == 0xc0 then (b & 0x1f) as Char32
    else if b & 0xf0 == 0xe0 then (b & 0x0f) as Char32
    else if b & 0xf8 == 0xf0 then (b & 0x07) as Char32
    else if b & 0xfc == 0xf8 then (b & 0x03) as Char32
    else (b & 0x01) as Char32
  }

  function MinValue(len: nat): Char32 {
    if len <= 1 then 0
    else if len == 2 then 0x80
    else if len == 3 then 0x800
    else if len == 4 then 0x10000
    else if len == 5 then 0x200000
    else 0x4000000
  }

  function MaxValue(len: nat): Char32 {
    if len <= 1 then 0x7f
    else if len == 2 then 0x7ff
    else if len == 3 then 0xffff
    else if len == 4 then 0x1fffff
    else if len == 5 then 0x3ffffff
    else 0x7fffffff
  }

  /** Not longer than it has to be, and not too large for the sequence. */
  predicate InRange(c: Char32, len: nat) {
    Between(MinValue(len), c, MaxValue(len))
  }

  predicate Between(low: Char32, c: Char32, high: Char32) {
    low <= c <= high
  }

  /** One more trailing byte. */
  function Shifted(high: Char32, b: Byte): Char32 {
    (high << 6) + (b & 0x3f) as Char32
  }

  /** `high` followed by the bits of trailing bytes. */
  function Assemble(high: Char32, trailing: seq<Byte>): Char32 {
    if trailing == [] then high
    else Shifted(Assemble(high, trailing[..|trailing| - 1]), trailing[|trailing| - 1])
  }

  predicate AllTrailing(s: seq<Byte>) {
    forall i | 0 <= i < |s| :: IsTrailing(s[i])
  }

  /** The first codepoint and what follows it. */
  function SplitFirst(s: seq<Byte>): Option<(Char32, seq<Byte>)> {
    if s == [] then None
    else
      var len := SequenceLength(s[0]);
      if len == 0 || |s| < len || !AllTrailing(s[1..len]) then None
      else
        var c := Assemble(LeadingBits(s[0]), s[1..len]);
        if InRange(c, len) then Some((c, s[len..])) else None
  }

  // ---------------------------------------------------------------------------
  // Encoding
  // ---------------------------------------------------------------------------

  /** A trailing byte with the low six bits. */
  function Trail(c: Char32): Byte {
    (0x80 + (c & 0x3f)) as Byte
  }

  function Encode(c: Char32): (s: seq<Byte>)
    ensures |s| <= 6
  {
    if c == 0 then []
    else if c < 0x80 then [(c & 0xff) as Byte]
    else if c < 0x800 then [(0xc0 + ((c >> 6) & 0x1f)) as Byte, Trail(c)]
    else if c < 0x10000 then [(0xe0 + ((c >> 12) & 0x0f)) as Byte, Trail(c >> 6), Trail(c)]
    else if c < 0x200000 then [(0xf0 + ((c >> 18) & 0x07)) as Byte, Trail(c >> 12), Trail(c >> 6), Trail(c)]
    else if c < 0x8000000 then
      [(0xf8 + ((c >> 24) & 0x03)) as Byte, Trail(c >> 18), Trail(c >> 12), Trail(c >> 6), Trail(c)]
    else
      [(0xfc + ((c >> 30) & 0x01)) as Byte, Trail(c >> 24), Trail(c >> 18), Trail(c >> 12), Trail(c >> 6), Trail(c)]
  }

  /** The codepoints that survive encoding: all but 0 and those whose high bits the encoder drops. */
  predicate Encodable(c: Char32) {
    1 <= c <= 0x3ffffff || 0x8000000 <= c <= 0x7fffffff
  }

  // ---------------------------------------------------------------------------
  // The bits of each length
  // ---------------------------------------------------------------------------

  lemma TrailIsTrailing(c: Char32)
    ensures IsTrailing(Trail(c))
  {}

  lemma Lead2(c: Char32)
    requires 0x80 <= c < 0x800
    ensures var b := (0xc0 + ((c >> 6) & 0x1f)) as Byte; SequenceLength(b) == 2 && Shifted(LeadingBits(b), Trail(c)) == c
  {}

  lemma Lead3(c: Char32)
    requires 0x800 <= c < 0x10000
    ensures var b := (0xe0 + ((c >> 12) & 0x0f)) as Byte;
            SequenceLength(b) == 3 && Shifted(Shifted(LeadingBits(b), Trail(c >> 6)), Trail(c)) == c
  {}

  lemma Lead4(c: Char32)
    requires 0x10000 <= c < 0x200000
    ensures var b := (0xf0 + ((c >> 18) & 0x07)) as Byte;
            && SequenceLength(b) == 4
            && Shifted(Shifted(Shifted(LeadingBits(b), Trail(c >> 12)), Trail(c >> 6)), Trail(c)) == c
  {}

  lemma Lead5(c: Char32)
    requires 0x200000 <= c < 0x8000000
    ensures var b := (0xf8 + ((c >> 24) & 0x03)) as Byte;
            && SequenceLength(b) == 5
            && Shifted(Shifted(Shifted(Shifted(LeadingBits(b), Trail(c >> 18)), Trail(c >> 12)), Trail(c >> 6)), Trail(c))
               == c & 0x3ffffff
  {}

  lemma Lead6(c: Char32)
    requires 0x8000000 <= c
    ensures var b := (0xfc + ((c >> 30) & 0x01)) as Byte;
            && SequenceLength(b) == 6
            && Shifted(Shifted(Shifted(Shifted(Shifted(LeadingBits(b), Trail(c >> 24)), Trail(c >> 18)), Trail(c >> 12)),
                               Trail(c >> 6)), Trail(c))
               == c & 0x7fffffff
  {}

  lemma BytesOf2(b0: Byte, b1: Byte)
    requires SequenceLength(b0) == 2 && IsTrailing(b1)
    requires InRange(Shifted(LeadingBits(b0), b1), 2)
    ensures Encode(Shifted(LeadingBits(b0), b1)) == [b0, b1]
  {}

  lemma BytesOf3(b0: Byte, b1: Byte, b2: Byte)
    requires SequenceLength(b0) == 3 && IsTrailing(b1) && IsTrailing(b2)
    requires InRange(Shifted(Shifted(LeadingBits(b0), b1), b2), 3)
    ensures Encode(Shifted(Shifted(LeadingBits(b0), b1), b2)) == [b0, b1, b2]
  {}

  lemma BytesOf4(b0: Byte, b1: Byte, b2: Byte, b3: Byte)
    requires SequenceLength(b0) == 4 && IsTrailing(b1) && IsTrailing(b2) && IsTrailing(b3)
    requires InRange(Shifted(Shifted(Shifted(LeadingBits(b0), b1), b2), b3), 4)
    ensures Encode(Shifted(Shifted(Shifted(LeadingBits(b0), b1), b2), b3)) == [b0, b1, b2, b3]
  {}

  lemma BytesOf5(b0: Byte, b1: Byte, b2: Byte, b3: Byte, b4: Byte)
    requires SequenceLength(b0) == 5 && IsTrailing(b1) && IsTrailing(b2) && IsTrailing(b3) && IsTrailing(b4)
    requires InRange(Shifted(Shifted(Shifted(Shifted(LeadingBits(b0), b1), b2), b3), b4), 5)
    ensures Encode(Shifted(Shifted(Shifted(Shifted(LeadingBits(b0), b1), b2), b3), b4)) == [b0, b1, b2, b3, b4]
  {}

  lemma BytesOf6(b0: Byte, b1: Byte, b2: Byte, b3: Byte, b4: Byte, b5: Byte)
    requires SequenceLength(b0) == 6 && IsTrailing(b1) && IsTrailing(b2) && IsTrailing(b3) && IsTrailing(b4)
    requires IsTrailing(b5)
    requires InRange(Shifted(Shifted(Shifted(Shifted(Shifted(LeadingBits(b0), b1), b2), b3), b4), b5), 6)
    requires Encodable(Shifted(Shifted(Shifted(Shifted(Shifted(LeadingBits(b0), b1), b2), b3), b4), b5))
    ensures Encode(Shifted(Shifted(Shifted(Shifted(Shifted(LeadingBits(b0), b1), b2), b3), b4), b5))
            == [b0, b1, b2, b3, b4, b5]
  {}

  // ---------------------------------------------------------------------------
  // One codepoint, there and back
  // ---------------------------------------------------------------------------

  lemma AssembleMore(high: Char32, s: seq<Byte>, k: nat)
    requires k < |s|
    ensures Assemble(high, s[..k + 1]) == Shifted(Assemble(high, s[..k]), s[k])
  {
    hide Shifted;
    assert s[..k + 1][..k] == s[..k];
  }

  /** Assembling up to five trailing bytes, written out. */
  lemma AssembleFew(h: Char32, s: seq<Byte>)
    requires |s| <= 5
    ensures Assemble(h, s) ==
            if |s| == 0 then h
            else if |s| == 1 then Shifted(h, s[0])
            else if |s| == 2 then Shifted(Shifted(h, s[0]), s[1])
            else if |s| == 3 then Shifted(Shifted(Shifted(h, s[0]), s[1]), s[2])
            else if |s| == 4 then Shifted(Shifted(Shifted(Shifted(h, s[0]), s[1]), s[2]), s[3])
            else Shifted(Shifted(Shifted(Shifted(Shifted(h, s[0]), s[1]), s[2]), s[3]), s[4])
  {
    assert Assemble(h, s[..0]) == h && s[..|s|] == s;
    hide Shifted, Assemble;
    forall k: nat | k < |s|
      ensures Assemble(h, s[..k + 1]) == Shifted(Assemble(h, s[..k]), s[k])
    {
      AssembleMore(h, s, k);
    }
    if |s| > 0 { assert s[..0 + 1] == s[..1]; }
    if |s| > 1 { assert s[..1 + 1] == s[..2]; }
    if |s| > 2 { assert s[..2 + 1] == s[..3]; }
    if |s| > 3 { assert s[..3 + 1] == s[..4]; }
    if |s| > 4 { assert s[..4 + 1] == s[..5]; }
  }

  lemma SplitsOff(lead: Byte, trailing: seq<Byte>, rest: seq<Byte>)
    requires SequenceLength(lead) == 1 + |trailing| && AllTrailing(trailing)
    ensures var c := Assemble(LeadingBits(lead), trailing); var len := 1 + |trailing|;
            SplitFirst([lead] + trailing + rest) ==
            if InRange(c, len) then Some((c, rest)) else None
  {
    hide SequenceLength, Assemble, LeadingBits, IsTrailing, InRange;
    var s := [lead] + trailing + rest;
    assert s[1..1 + |trailing|] == trailing && s[1 + |trailing|..] == rest;
  }

  /** What the encoder keeps of a codepoint. */
  function Kept(c: Char32): Char32 {
    if c < 0x200000 then c
    else if c < 0x8000000 then c & 0x3ffffff
    else c & 0x7fffffff
  }

  lemma EncodedIsRead(c: Char32, rest: seq<Byte>)
    requires c != 0
    ensures Encode(c) != [] && SequenceLength(Encode(c)[0]) == |Encode(c)|
    ensures SplitFirst(Encode(c) + rest) ==
            if InRange(Kept(c), |Encode(c)|) then Some((Kept(c), rest)) else None
  {
    var s := Encode(c);
    var trailing := s[1..];
    EncodedBytes(c);
    EncodedBits(c);
    hide Encode, SplitFirst, Assemble, LeadingBits, SequenceLength, IsTrailing, InRange, Kept;
    SplitsOff(s[0], trailing, rest);
    assert [s[0]] + trailing + rest == s + rest;
  }

  lemma EncodedBytes(c: Char32)
    requires c != 0
    ensures var s := Encode(c); s != [] && SequenceLength(s[0]) == |s| && AllTrailing(s[1..])
  {
    TrailIsTrailing(c);
    TrailIsTrailing(c >> 6);
    TrailIsTrailing(c >> 12);
    TrailIsTrailing(c >> 18);
    TrailIsTrailing(c >> 24);
    LeadIsLead(c);
    hide Trail, IsTrailing, SequenceLength;
  }

  lemma LeadIsLead(c: Char32)
    requires c != 0
    ensures SequenceLength(Encode(c)[0]) == |Encode(c)|
  {}

  lemma EncodedBits(c: Char32)
    requires c != 0
    ensures Assemble(LeadingBits(Encode(c)[0]), Encode(c)[1..]) == Kept(c)
  {
    AssembleFew(LeadingBits(Encode(c)[0]), Encode(c)[1..]);
    hide Assemble, Shifted, LeadingBits, Trail;
    if c < 0x80 {
      Lead1(c);
    } else if c < 0x800 {
      Lead2(c);
    } else if c < 0x10000 {
      Lead3(c);
    } else if c < 0x200000 {
      Lead4(c);
    } else if c < 0x8000000 {
      Lead5(c);
    } else {
      Lead6(c);
    }
  }

  lemma Lead1(c: Char32)
    requires c < 0x80
    ensures LeadingBits((c & 0xff) as Byte) == c
  {}

  /** Encoding and decoding gives a codepoint back if and only if it is neither 0 nor one that loses bits. */
  lemma RoundTrip(c: Char32, rest: seq<Byte>)
    ensures SplitFirst(Encode(c) + rest) == Some((c, rest)) <==> Encodable(c)
  {
    if c == 0 {
      assert Encode(c) + rest == rest;
      if SplitFirst(rest).Some? {
        SplitShortens(rest);
      }
    } else {
      EncodedIsRead(c, rest);
      KeptInRange(c);
      hide SplitFirst, Encode, Kept, Encodable, InRange;
    }
  }

  lemma KeptInRange(c: Char32)
    requires c != 0
    ensures Kept(c) == c && InRange(c, |Encode(c)|) <==> Encodable(c)
  {
    EncodedSize(c);
    hide Encode;
    KeptOnlyIf(c);
  }

  lemma EncodedSize(c: Char32)
    requires c != 0
    ensures var n := |Encode(c)|;
            if c < 0x80 then n == 1 else if c < 0x800 then n == 2 else if c < 0x10000 then n == 3
            else if c < 0x200000 then n == 4 else if c < 0x8000000 then n == 5 else n == 6
  {
    hide Trail;
  }

  lemma KeptOnlyIf(c: Char32)
    ensures Kept(c) == c <==> (c <= 0x3ffffff || 0x8000000 <= c <= 0x7fffffff)
  {
    MaskedAt26(c);
    MaskedAt31(c);
  }

  lemma MaskedAt26(c: Char32)
    ensures c & 0x3ffffff == c <==> c <= 0x3ffffff
  {}

  lemma MaskedAt31(c: Char32)
    ensures c & 0x7fffffff == c <==> c <= 0x7fffffff
  {}

  lemma SplitShortens(s: seq<Byte>)
    requires SplitFirst(s).Some?
    ensures var len := SequenceLength(s[0]); 1 <= len <= |s| && SplitFirst(s).value.1 == s[len..]
  {
    hide SequenceLength, LeadingBits, IsTrailing, InRange, Assemble;
  }

  /** What a successful split says about the bytes it consumed. */
  lemma SplitMeans(s: seq<Byte>)
    requires SplitFirst(s).Some?
    ensures var (c, rest) := SplitFirst(s).value; var len := SequenceLength(s[0]);
            && 1 <= len <= |s| && rest == s[len..] && AllTrailing(s[1..len])
            && c == Assemble(LeadingBits(s[0]), s[1..len]) && InRange(c, len)
  {
    hide SequenceLength, LeadingBits, IsTrailing, InRange, Assemble;
  }

  /** A sequence in the right range is the encoding of its codepoint, unless that loses bits. */
  lemma ReadIsEncoded(s: seq<Byte>)
    requires s != [] && SequenceLength(s[0]) == |s| && AllTrailing(s[1..])
    requires var c := Assemble(LeadingBits(s[0]), s[1..]); InRange(c, |s|) && Encodable(c)
    ensures Encode(Assemble(LeadingBits(s[0]), s[1..])) == s
  {
    var t := s[1..];
    AssembleFew(LeadingBits(s[0]), t);
    hide Assemble, Shifted, SequenceLength, LeadingBits, IsTrailing, Encode, InRange, Encodable;
    LengthAtMostSix(s[0]);
    match |s|
    case 1 => ByteOf1(s[0]);
    case 2 => BytesOf2(s[0], s[1]);
    case 3 => BytesOf3(s[0], s[1], s[2]);
    case 4 => BytesOf4(s[0], s[1], s[2], s[3]);
    case 5 => BytesOf5(s[0], s[1], s[2], s[3], s[4]);
    case _ => BytesOf6(s[0], s[1], s[2], s[3], s[4], s[5]);
  }

  lemma LengthAtMostSix(b: Byte)
    ensures SequenceLength(b) <= 6
  {}

  lemma ByteOf1(b: Byte)
    requires SequenceLength(b) == 1 && Encodable(LeadingBits(b))
    ensures Encode(LeadingBits(b)) == [b]
  {}

  /** The encoding of a codepoint is never longer than what it was read from, and shorter if it loses bits. */
  lemma EncodedLength(c: Char32, len: nat)
    requires 1 <= len <= 6 && InRange(c, len)
    ensures |Encode(c)| == len <==> Encodable(c)
    ensures |Encode(c)| <= len
  {
    hide Trail;
  }

  /**
   A string that splits is the encoding of its first codepoint followed by the rest, so that no
   longer form is ever accepted, if and only if that codepoint survives encoding.
   */
  lemma SplitIsEncoding(s: seq<Byte>)
    requires SplitFirst(s).Some?
    ensures var (c, rest) := SplitFirst(s).value;
            && (s == Encode(c) + rest <==> Encodable(c))
            && |Encode(c)| + |rest| <= |s|
            && (|Encode(c)| + |rest| == |s| ==> Encodable(c))
  {
    SplitMeans(s);
    var (c, rest) := SplitFirst(s).value;
    var len := SequenceLength(s[0]);
    LengthAtMostSix(s[0]);
    hide Encode, SplitFirst, Assemble, LeadingBits, SequenceLength, IsTrailing, InRange, Encodable;
    EncodedLength(c, len);
    if Encodable(c) {
      assert s[..len][1..] == s[1..len];
      ReadIsEncoded(s[..len]);
      assert s == s[..len] + s[len..];
    }
  }
}
