/** The decoder, the encoder and both directions of reading against the table of section 2 of RFC 2279. */
module Utf8Standard {
  import opened Options
  import opened Utf8
  import opened Utf8Strings

  /** `0x80` and six bits. */
  function Tail(c: Char32): Byte {
    (0x80 + c % 64) as Byte
  }

  /** The octets of a character number below 2^31. */
  function Standard(c: Char32): (s: seq<Byte>)
    requires c <= 0x7fffffff
    ensures 1 <= |s| <= 6
  {
    if c < 0x80 then [c as Byte]
    else if c < 0x800 then [(0xc0 + c / 64) as Byte, Tail(c)]
    else if c < 0x1_0000 then [(0xe0 + c / 0x1000) as Byte, Tail(c / 64), Tail(c)]
    else if c < 0x20_0000 then [(0xf0 + c / 0x4_0000) as Byte, Tail(c / 0x1000), Tail(c / 64), Tail(c)]
    else if c < 0x400_0000 then
      [(0xf8 + c / 0x100_0000) as Byte, Tail(c / 0x4_0000), Tail(c / 0x1000), Tail(c / 64), Tail(c)]
    else
      [(0xfc + c / 0x4000_0000) as Byte, Tail(c / 0x100_0000), Tail(c / 0x4_0000), Tail(c / 0x1000), Tail(c / 64), Tail(c)]
  }

  // ---------------------------------------------------------------------------
  // The encoder
  // ---------------------------------------------------------------------------

  lemma TailIsTrail(c: Char32)
    ensures Tail(c) == Trail(c)
  {}

  lemma Quotients(c: Char32)
    ensures c / 64 == c >> 6 && c / 0x1000 == c >> 12 && c / 0x4_0000 == c >> 18
    ensures c / 0x100_0000 == c >> 24 && c / 0x4000_0000 == c >> 30
  {}

  lemma TailsAreTrails(c: Char32)
    ensures Tail(c) == Trail(c) && Tail(c / 64) == Trail(c >> 6) && Tail(c / 0x1000) == Trail(c >> 12)
    ensures Tail(c / 0x4_0000) == Trail(c >> 18) && Tail(c / 0x100_0000) == Trail(c >> 24)
  {
    Quotients(c);
    TailIsTrail(c);
    TailIsTrail(c >> 6);
    TailIsTrail(c >> 12);
    TailIsTrail(c >> 18);
    TailIsTrail(c >> 24);
  }

  lemma Leads(c: Char32)
    requires c <= 0x7fffffff
    ensures c < 0x80 ==> (c & 0xff) as Byte == c as Byte
    ensures 0x80 <= c < 0x800 ==> (0xc0 + ((c >> 6) & 0x1f)) as Byte == (0xc0 + c / 64) as Byte
    ensures 0x800 <= c < 0x1_0000 ==> (0xe0 + ((c >> 12) & 0x0f)) as Byte == (0xe0 + c / 0x1000) as Byte
    ensures 0x1_0000 <= c < 0x20_0000 ==> (0xf0 + ((c >> 18) & 0x07)) as Byte == (0xf0 + c / 0x4_0000) as Byte
    ensures 0x20_0000 <= c < 0x400_0000 ==> (0xf8 + ((c >> 24) & 0x03)) as Byte == (0xf8 + c / 0x100_0000) as Byte
    ensures 0x400_0000 <= c ==> (0xfc + ((c >> 30) & 0x01)) as Byte == (0xfc + c / 0x4000_0000) as Byte
  {}

  /** The encoder writes the standard octets of exactly the codepoints that survive encoding. */
  lemma EncodeIsStandard(c: Char32)
    requires c <= 0x7fffffff
    ensures Encode(c) == Standard(c) <==> Encodable(c)
  {
    TailsAreTrails(c);
    Leads(c);
    hide Tail, Trail;
  }

  // ---------------------------------------------------------------------------
  // The decoder
  // ---------------------------------------------------------------------------

  /** The six octets of the codepoints for which the encoder writes five. */
  lemma SixOctets(c: Char32)
    requires 0x400_0000 <= c <= 0x7fffffff
    ensures var b := (0xfc + ((c >> 30) & 0x01)) as Byte;
            && SequenceLength(b) == 6
            && Shifted(Shifted(Shifted(Shifted(Shifted(LeadingBits(b), Trail(c >> 24)), Trail(c >> 18)), Trail(c >> 12)),
                               Trail(c >> 6)), Trail(c)) == c
  {}

  lemma SixOctetsBack(b0: Byte, b1: Byte, b2: Byte, b3: Byte, b4: Byte, b5: Byte, c: Char32)
    requires SequenceLength(b0) == 6 && IsTrailing(b1) && IsTrailing(b2) && IsTrailing(b3) && IsTrailing(b4)
    requires IsTrailing(b5)
    requires c == Shifted(Shifted(Shifted(Shifted(Shifted(LeadingBits(b0), b1), b2), b3), b4), b5)
    requires InRange(c, 6)
    ensures (0xfc + ((c >> 30) & 0x01)) as Byte == b0 && Trail(c >> 24) == b1 && Trail(c >> 18) == b2
    ensures Trail(c >> 12) == b3 && Trail(c >> 6) == b4 && Trail(c) == b5
  {}

  lemma StandardLong(c: Char32)
    requires 0x400_0000 <= c <= 0x7fffffff
    ensures Standard(c) ==
            [(0xfc + ((c >> 30) & 0x01)) as Byte, Trail(c >> 24), Trail(c >> 18), Trail(c >> 12), Trail(c >> 6), Trail(c)]
  {
    TailsAreTrails(c);
    Leads(c);
    hide Tail, Trail;
  }

  lemma TrailsAreTrailing(c: Char32)
    ensures IsTrailing(Trail(c)) && IsTrailing(Trail(c >> 6)) && IsTrailing(Trail(c >> 12)) && IsTrailing(Trail(c >> 18))
    ensures IsTrailing(Trail(c >> 24))
  {
    hide Trail, IsTrailing;
    TrailIsTrailing(c);
    TrailIsTrailing(c >> 6);
    TrailIsTrailing(c >> 12);
    TrailIsTrailing(c >> 18);
    TrailIsTrailing(c >> 24);
  }

  lemma SixRange(c: Char32)
    ensures InRange(c, 6) <==> 0x400_0000 <= c <= 0x7fffffff
  {}

  lemma ReadLong(c: Char32, rest: seq<Byte>)
    requires 0x400_0000 <= c <= 0x7fffffff
    ensures SplitFirst(Standard(c) + rest) == Some((c, rest))
  {
    hide Standard, Trail, Shifted, LeadingBits, SequenceLength, IsTrailing, Assemble, SplitFirst, InRange;
    StandardLong(c);
    SixOctets(c);
    TrailsAreTrailing(c);
    var s := Standard(c);
    AssembleFew(LeadingBits(s[0]), s[1..]);
    SixRange(c);
    SplitsOff(s[0], s[1..], rest);
    assert s + rest == [s[0]] + s[1..] + rest;
  }

  lemma StandardRead(c: Char32, rest: seq<Byte>)
    requires c <= 0x7fffffff
    ensures SplitFirst(Standard(c) + rest) == Some((c, rest))
  {
    if c == 0 {
      assert ([0] + rest)[1..] == rest && ([0] + rest)[1..1] == [];
    } else if Encodable(c) {
      EncodeIsStandard(c);
      RoundTrip(c, rest);
    } else {
      ReadLong(c, rest);
    }
  }

  lemma LongRead(s: seq<Byte>)
    requires |s| == 6 && SequenceLength(s[0]) == 6 && AllTrailing(s[1..])
    requires InRange(Assemble(LeadingBits(s[0]), s[1..]), 6)
    ensures var c := Assemble(LeadingBits(s[0]), s[1..]); c <= 0x7fffffff && Standard(c) == s
  {
    hide Standard, Trail, Shifted, LeadingBits, SequenceLength, IsTrailing, Assemble, InRange;
    var t := s[1..];
    var c := Assemble(LeadingBits(s[0]), t);
    AssembleFew(LeadingBits(s[0]), t);
    SixRange(c);
    SixOctetsBack(s[0], t[0], t[1], t[2], t[3], t[4], c);
    StandardLong(c);
    assert s == [s[0], t[0], t[1], t[2], t[3], t[4]];
  }

  lemma RangeOfLength(c: Char32, len: nat)
    requires 1 <= len <= 6 && InRange(c, len)
    ensures c <= 0x7fffffff
    ensures !Encodable(c) && c != 0 ==> len == 6
    ensures c == 0 ==> len == 1
  {}

  lemma ZeroOctet(b: Byte)
    requires SequenceLength(b) == 1 && LeadingBits(b) == 0
    ensures b == 0
  {}

  /** What is read are the standard octets of what it is read as. */
  lemma ReadStandard(s: seq<Byte>)
    requires SplitFirst(s).Some?
    ensures var (c, rest) := SplitFirst(s).value; c <= 0x7fffffff && s == Standard(c) + rest
  {
    hide SplitFirst, SequenceLength, LeadingBits, IsTrailing, InRange, Assemble, Standard, Encode, Encodable;
    SplitMeans(s);
    var (c, rest) := SplitFirst(s).value;
    var len := SequenceLength(s[0]);
    LengthAtMostSix(s[0]);
    RangeOfLength(c, len);
    assert s == s[..len] + s[len..];
    if Encodable(c) {
      SplitIsEncoding(s);
      EncodeIsStandard(c);
    } else if c == 0 {
      assert s[1..1] == [] && Assemble(LeadingBits(s[0]), []) == LeadingBits(s[0]) by { AssembleNothing(LeadingBits(s[0])); }
      ZeroOctet(s[0]);
      assert s[..1] == [0] && Standard(0) == [0] by { StandardZero(); }
    } else {
      assert s[..6][1..] == s[1..6];
      LongRead(s[..6]);
    }
  }

  lemma AssembleNothing(h: Char32)
    ensures Assemble(h, []) == h
  {}

  lemma StandardZero()
    ensures Standard(0) == [0]
  {}

  /** A string reads as a codepoint and a rest exactly when it is the standard octets of it, then the rest. */
  lemma SplitFirstIff(s: seq<Byte>, c: Char32, rest: seq<Byte>)
    ensures SplitFirst(s) == Some((c, rest)) <==> c <= 0x7fffffff && s == Standard(c) + rest
  {
    hide SplitFirst, Standard;
    if SplitFirst(s).Some? {
      ReadStandard(s);
    }
    if c <= 0x7fffffff {
      StandardRead(c, rest);
    }
  }

  /** The same from the end. */
  lemma SplitLastIff(s: seq<Byte>, before: seq<Byte>, c: Char32)
    ensures SplitLast(s) == Some((before, c)) <==> c <= 0x7fffffff && s == before + Standard(c)
  {
    hide SplitFirst, Standard, SplitLast;
    if SplitLast(s).Some? {
      SplitLastMeans(s);
      var (r, d) := SplitLast(s).value;
      ReadStandard(s[|r|..]);
      assert s == s[..|r|] + s[|r|..] && Standard(d) + [] == Standard(d);
    }
    if c <= 0x7fffffff {
      StandardRead(c, []);
      assert Standard(c) + [] == Standard(c);
      SplitLastFinds(before, Standard(c));
    }
  }

  // ---------------------------------------------------------------------------
  // Whole strings, valid or not
  // ---------------------------------------------------------------------------

  /** The standard octets of a list of codepoints. */
  function StandardAll(cs: seq<Char32>): seq<Byte>
    requires forall i | 0 <= i < |cs| :: cs[i] <= 0x7fffffff
  {
    if cs == [] then [] else Standard(cs[0]) + StandardAll(cs[1..])
  }

  /** A string that starts with no standard octets. */
  ghost predicate NothingStarts(s: seq<Byte>) {
    forall c: Char32, rest | c <= 0x7fffffff :: s != Standard(c) + rest
  }

  /** A string that ends with no standard octets. */
  ghost predicate NothingEnds(s: seq<Byte>) {
    forall before, c: Char32 | c <= 0x7fffffff :: s != before + Standard(c)
  }

  lemma NothingStartsIff(s: seq<Byte>)
    ensures NothingStarts(s) <==> SplitFirst(s) == None
  {
    hide SplitFirst, Standard;
    if SplitFirst(s) == None {
      forall c: Char32, rest | c <= 0x7fffffff
        ensures s != Standard(c) + rest
      {
        StandardRead(c, rest);
      }
    } else {
      ReadStandard(s);
      var (c, rest) := SplitFirst(s).value;
      assert s == Standard(c) + rest;
    }
  }

  lemma NothingEndsIff(s: seq<Byte>)
    ensures NothingEnds(s) <==> SplitLast(s) == None
  {
    hide SplitLast, Standard;
    forall before, c: Char32 | c <= 0x7fffffff
      ensures s == before + Standard(c) ==> SplitLast(s) == Some((before, c))
    {
      SplitLastIff(s, before, c);
    }
    if SplitLast(s).Some? {
      SplitLastIff(s, SplitLast(s).value.0, SplitLast(s).value.1);
    }
  }

  /** Reading stops at the first place where no standard octets start, and has read all before it. */
  lemma {:induction false} DecodeStopsAtInvalid(cs: seq<Char32>, junk: seq<Byte>)
    requires forall i | 0 <= i < |cs| :: cs[i] <= 0x7fffffff
    requires NothingStarts(junk)
    ensures DecodeAll(StandardAll(cs) + junk) == cs
    ensures Valid(StandardAll(cs) + junk) <==> junk == []
  {
    hide SplitFirst, Standard, NothingStarts;
    if cs == [] {
      NothingStartsIff(junk);
      assert [] + junk == junk;
    } else {
      var rest := StandardAll(cs[1..]) + junk;
      DecodeStopsAtInvalid(cs[1..], junk);
      StandardRead(cs[0], rest);
      assert StandardAll(cs) + junk == Standard(cs[0]) + rest;
    }
  }

  /** Reading from the end stops at the last place where no standard octets end, and leaves what is before it. */
  lemma {:induction false} PeelStopsAtInvalid(cs: seq<Char32>, junk: seq<Byte>)
    requires forall i | 0 <= i < |cs| :: cs[i] <= 0x7fffffff
    requires NothingEnds(junk)
    ensures Peel(junk + StandardAll(cs)) == (Reversed(cs), junk)
  {
    hide SplitLast, Standard, NothingEnds, StandardAll;
    if cs == [] {
      NothingEndsIff(junk);
      NoOctets();
      assert junk + [] == junk;
    } else {
      var n := |cs| - 1;
      StandardAllSnoc(cs);
      var front := junk + StandardAll(cs[..n]);
      assert junk + StandardAll(cs) == front + Standard(cs[n]);
      SplitLastIff(junk + StandardAll(cs), front, cs[n]);
      PeelStopsAtInvalid(cs[..n], junk);
    }
  }

  lemma NoOctets()
    ensures StandardAll([]) == []
  {}

  lemma {:induction false} StandardAllSnoc(cs: seq<Char32>)
    requires cs != [] && forall i | 0 <= i < |cs| :: cs[i] <= 0x7fffffff
    ensures StandardAll(cs) == StandardAll(cs[..|cs| - 1]) + Standard(cs[|cs| - 1])
  {
    hide Standard;
    var n := |cs| - 1;
    if n == 0 {
      assert cs[1..] == [] && cs[..0] == [];
      assert Standard(cs[0]) + [] == Standard(cs[0]) && [] + Standard(cs[0]) == Standard(cs[0]);
    } else {
      StandardAllSnoc(cs[1..]);
      assert cs[1..][..n - 1] == cs[..n][1..] && cs[1..][n - 1] == cs[n];
      assert StandardAll(cs) == Standard(cs[0]) + (StandardAll(cs[..n][1..]) + Standard(cs[n]));
    }
  }
}
