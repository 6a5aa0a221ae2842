/** Whole strings: conversion to and from codepoints, validity, and reading from the end. */
module Utf8Strings {
  import opened Options
  import opened Utf8

  /** The codepoints up to the end, or up to the first place that cannot be read. */
  function DecodeAll(s: seq<Byte>): seq<Char32>
    decreases |s|
  {
    match SplitFirst(s)
    case None => []
    case Some((c, rest)) =>
      SplitShortens(s);
      [c] + DecodeAll(rest)
  }

  function EncodeAll(cs: seq<Char32>): seq<Byte>
    decreases |cs|
  {
    if cs == [] then [] else Encode(cs[0]) + EncodeAll(cs[1..])
  }

  /** Every byte belongs to a codepoint. */
  predicate Valid(s: seq<Byte>)
    decreases |s|
  {
    s == [] ||
    match SplitFirst(s)
    case None => false
    case Some((c, rest)) =>
      SplitShortens(s);
      Valid(rest)
  }

  predicate AllEncodable(cs: seq<Char32>) {
    forall i | 0 <= i < |cs| :: Encodable(cs[i])
  }

  // ---------------------------------------------------------------------------
  // Round trips
  // ---------------------------------------------------------------------------

  /** An encoded list never reads as a list that starts with 0. */
  lemma {:induction false} NoZero(cs: seq<Char32>)
    ensures DecodeAll(EncodeAll(cs)) != [] ==> DecodeAll(EncodeAll(cs))[0] != 0
    decreases |cs|
  {
    hide SplitFirst, Encode, Kept, InRange;
    if cs != [] {
      if cs[0] == 0 {
        EncodedZero();
        assert EncodeAll(cs) == EncodeAll(cs[1..]);
        NoZero(cs[1..]);
      } else {
        EncodedIsRead(cs[0], EncodeAll(cs[1..]));
        NotReadAsZero(cs[0]);
      }
    } else {
      assert SplitFirst([]).None? by { SplitEmpty(); }
    }
  }

  lemma SplitEmpty()
    ensures SplitFirst([]) == None
  {}

  lemma EncodedZero()
    ensures Encode(0) == []
  {}

  lemma NotReadAsZero(c: Char32)
    requires c != 0
    ensures InRange(Kept(c), |Encode(c)|) ==> Kept(c) != 0
  {
    EncodedSize(c);
    hide Encode, Kept;
  }

  /** Lists of codepoints survive encoding and decoding if and only if each of their members does. */
  lemma {:induction false} DecodeUndoesEncode(cs: seq<Char32>)
    ensures DecodeAll(EncodeAll(cs)) == cs <==> AllEncodable(cs)
    decreases |cs|
  {
    hide SplitFirst, Encode, Kept, InRange, Encodable;
    if cs == [] {
      SplitEmpty();
    } else {
      var c, rest := cs[0], cs[1..];
      RoundTrip(c, EncodeAll(rest));
      DecodeUndoesEncode(rest);
      if Encodable(c) {
        assert DecodeAll(EncodeAll(cs)) == [c] + DecodeAll(EncodeAll(rest));
        assert AllEncodable(cs) <==> AllEncodable(rest);
      } else if c == 0 {
        EncodedZero();
        assert EncodeAll(cs) == EncodeAll(rest);
        NoZero(rest);
      } else {
        EncodedIsRead(c, EncodeAll(rest));
        assert DecodeAll(EncodeAll(cs)) == [] || DecodeAll(EncodeAll(cs))[0] != c;
      }
    }
  }

  /** The encoding of what was read never exceeds the string, and is as long only if every byte was read. */
  lemma {:induction false} ReencodedLength(s: seq<Byte>)
    ensures |EncodeAll(DecodeAll(s))| <= |s|
    ensures |EncodeAll(DecodeAll(s))| == |s| ==> Valid(s) && AllEncodable(DecodeAll(s))
    decreases |s|
  {
    hide SplitFirst, Encode, Encodable;
    if SplitFirst(s).Some? {
      var (c, rest) := SplitFirst(s).value;
      SplitShortens(s);
      SplitIsEncoding(s);
      ReencodedLength(rest);
      assert DecodeAll(s)[1..] == DecodeAll(rest);
    }
  }

  /** Decoding and encoding gives a string back if and only if it is valid and its codepoints are encodable. */
  lemma {:induction false} EncodeUndoesDecode(s: seq<Byte>)
    ensures EncodeAll(DecodeAll(s)) == s <==> Valid(s) && AllEncodable(DecodeAll(s))
    decreases |s|
  {
    hide SplitFirst, Encode, Encodable;
    ReencodedLength(s);
    if Valid(s) && AllEncodable(DecodeAll(s)) && s != [] {
      var (c, rest) := SplitFirst(s).value;
      SplitShortens(s);
      SplitIsEncoding(s);
      assert DecodeAll(s)[1..] == DecodeAll(rest);
      assert AllEncodable(DecodeAll(rest));
      EncodeUndoesDecode(rest);
    } else if s == [] {
      SplitEmpty();
    }
  }

  // ---------------------------------------------------------------------------
  // From the end
  // ---------------------------------------------------------------------------

  /** How many trailing bytes end the string. */
  function TrailingAtEnd(s: seq<Byte>): (n: nat)
    ensures n <= |s|
  {
    if s == [] || !IsTrailing(s[|s| - 1]) then 0 else 1 + TrailingAtEnd(s[..|s| - 1])
  }

  /** The last codepoint and what precedes it. */
  function SplitLast(s: seq<Byte>): Option<(seq<Byte>, Char32)> {
    var n := TrailingAtEnd(s);
    if n == |s| then None
    else
      var start := |s| - n - 1;
      match SplitFirst(s[start..])
      case None => None
      case Some((c, rest)) => if rest == [] then Some((s[..start], c)) else None
  }

  /** The codepoints from the last to the first, up to the first place that cannot be read, and what is left. */
  function Peel(s: seq<Byte>): (seq<Char32>, seq<Byte>)
    decreases |s|
  {
    match SplitLast(s)
    case None => ([], s)
    case Some((rest, c)) =>
      var (cs, left) := Peel(rest);
      ([c] + cs, left)
  }

  function Reversed<T>(s: seq<T>): seq<T> {
    if s == [] then [] else [s[|s| - 1]] + Reversed(s[..|s| - 1])
  }

  lemma {:induction false} EndOfPiece(before: seq<Byte>, lead: Byte, trailing: seq<Byte>)
    requires AllTrailing(trailing) && !IsTrailing(lead)
    ensures TrailingAtEnd(before + [lead] + trailing) == |trailing|
    decreases |trailing|
  {
    hide IsTrailing;
    var s := before + [lead] + trailing;
    if trailing == [] {
      assert s == before + [lead];
    } else {
      assert s[..|s| - 1] == before + [lead] + trailing[..|trailing| - 1];
      EndOfPiece(before, lead, trailing[..|trailing| - 1]);
    }
  }

  lemma LeadIsNotTrailing(b: Byte)
    requires SequenceLength(b) != 0
    ensures !IsTrailing(b)
  {}

  /** Behind anything at all, a sequence that fills the end of the string is what SplitLast finds. */
  lemma SplitLastFinds(before: seq<Byte>, piece: seq<Byte>)
    requires SplitFirst(piece).Some? && SplitFirst(piece).value.1 == []
    ensures SplitLast(before + piece) == Some((before, SplitFirst(piece).value.0))
  {
    SplitMeans(piece);
    LeadIsNotTrailing(piece[0]);
    hide SplitFirst, SequenceLength, IsTrailing, LeadingBits, Assemble, InRange;
    assert piece[1..|piece|] == piece[1..];
    assert before + piece == before + [piece[0]] + piece[1..];
    EndOfPiece(before, piece[0], piece[1..]);
    var s := before + piece;
    assert s[|before|..] == piece && s[..|before|] == before;
  }

  /** A sequence reads the same whatever follows it. */
  lemma SplitIgnoresRest(s: seq<Byte>)
    requires SplitFirst(s).Some?
    ensures var (c, rest) := SplitFirst(s).value; var len := SequenceLength(s[0]);
            1 <= len <= |s| && rest == s[len..] && SplitFirst(s[..len]) == Some((c, []))
  {
    SplitMeans(s);
    var len := SequenceLength(s[0]);
    hide SequenceLength, IsTrailing, LeadingBits, Assemble, InRange;
    assert s[..len][1..len] == s[1..len] && s[..len][len..] == [];
  }

  /**
   The last codepoint of a valid string is the last one read from the front, and what precedes it is
   valid and reads as all the others.
   */
  lemma {:induction false} SplitLastOfValid(s: seq<Byte>)
    requires Valid(s) && s != []
    ensures SplitLast(s).Some?
    ensures var (rest, c) := SplitLast(s).value;
            |rest| < |s| && Valid(rest) && DecodeAll(s) == DecodeAll(rest) + [c]
    decreases |s|
  {
    hide SplitFirst, SplitLast, SequenceLength, DecodeAll, Valid;
    TailOfValid(s);
    var rest := SplitFirst(s).value.1;
    var piece := FirstPiece(s);
    if rest == [] {
      assert [] + piece == s;
      SplitLastFinds([], piece);
      OnlyPiece(s);
    } else {
      SplitLastOfValid(rest);
      var (before, c) := SplitLast(rest).value;
      LastWithPiece(piece, rest, before, c);
    }
  }

  /** The bytes of the first codepoint. */
  lemma FirstPiece(s: seq<Byte>) returns (piece: seq<Byte>)
    requires SplitFirst(s).Some?
    ensures var (c, rest) := SplitFirst(s).value; s == piece + rest && SplitFirst(piece) == Some((c, []))
  {
    SplitIgnoresRest(s);
    hide SplitFirst;
    var len := SequenceLength(s[0]);
    piece := s[..len];
    assert s == piece + s[len..];
  }

  lemma LastWithPiece(piece: seq<Byte>, rest: seq<Byte>, before: seq<Byte>, c: Char32)
    requires SplitFirst(piece).Some? && SplitFirst(piece).value.1 == []
    requires SplitLast(rest) == Some((before, c)) && Valid(before) && DecodeAll(rest) == DecodeAll(before) + [c]
    ensures SplitLast(piece + rest) == Some((piece + before, c)) && Valid(piece + before)
    ensures DecodeAll(piece + rest) == DecodeAll(piece + before) + [c]
  {
    hide SplitFirst, SplitLast, DecodeAll, Valid;
    LastOfMore(piece, rest);
    PrependPiece(piece, before);
    PrependPiece(piece, rest);
    assert [SplitFirst(piece).value.0] + (DecodeAll(before) + [c]) == DecodeAll(piece + before) + [c];
  }

  lemma OnlyPiece(s: seq<Byte>)
    requires SplitFirst(s).Some? && SplitFirst(s).value.1 == []
    ensures Valid([]) && DecodeAll([]) == [] && DecodeAll(s) == [SplitFirst(s).value.0]
  {
    SplitEmpty();
    hide SplitFirst;
  }

  lemma TailOfValid(s: seq<Byte>)
    requires Valid(s) && s != []
    ensures SplitFirst(s).Some? && Valid(SplitFirst(s).value.1) && |SplitFirst(s).value.1| < |s|
  {
    hide SplitFirst;
    SplitShortens(s);
  }

  /** More in front of a string does not change its last codepoint. */
  lemma LastOfMore(before: seq<Byte>, s: seq<Byte>)
    requires SplitLast(s).Some?
    ensures SplitLast(before + s) == Some((before + SplitLast(s).value.0, SplitLast(s).value.1))
  {
    hide SplitFirst, IsTrailing, TrailingAtEnd;
    TrailingOfMore(before, s);
    var n := TrailingAtEnd(s);
    var t := before + s;
    assert t[|t| - n - 1..] == s[|s| - n - 1..];
    assert t[..|t| - n - 1] == before + s[..|s| - n - 1];
  }

  lemma {:induction false} TrailingOfMore(before: seq<Byte>, s: seq<Byte>)
    requires TrailingAtEnd(s) < |s|
    ensures TrailingAtEnd(before + s) == TrailingAtEnd(s)
    decreases |s|
  {
    hide IsTrailing;
    if TrailingAtEnd(s) > 0 {
      assert (before + s)[..|before + s| - 1] == before + s[..|s| - 1];
      TrailingOfMore(before, s[..|s| - 1]);
    }
  }

  /** A sequence in front of a string is read first. */
  lemma PrependPiece(piece: seq<Byte>, s: seq<Byte>)
    requires SplitFirst(piece).Some? && SplitFirst(piece).value.1 == []
    ensures var c := SplitFirst(piece).value.0;
            && SplitFirst(piece + s) == Some((c, s))
            && DecodeAll(piece + s) == [c] + DecodeAll(s) && (Valid(piece + s) <==> Valid(s))
  {
    PrependSplits(piece, s);
    hide SplitFirst;
  }

  lemma PrependSplits(piece: seq<Byte>, s: seq<Byte>)
    requires SplitFirst(piece).Some? && SplitFirst(piece).value.1 == []
    ensures SplitFirst(piece + s) == Some((SplitFirst(piece).value.0, s))
  {
    SplitMeans(piece);
    var len := SequenceLength(piece[0]);
    hide SequenceLength, IsTrailing, LeadingBits, Assemble, InRange;
    assert (piece + s)[1..len] == piece[1..len] && (piece + s)[len..] == s;
  }

  /** Reading a valid string from the end gives the reverse of reading it from the front, and leaves nothing. */
  lemma {:induction false} PeelReverses(s: seq<Byte>)
    requires Valid(s)
    ensures Peel(s) == (Reversed(DecodeAll(s)), [])
    decreases |s|
  {
    hide SplitFirst, SplitLast;
    if s == [] {
      SplitEmpty();
      LastOfEmpty();
    } else {
      SplitLastOfValid(s);
      var (rest, c) := SplitLast(s).value;
      PeelReverses(rest);
      assert (DecodeAll(rest) + [c])[..|DecodeAll(rest)|] == DecodeAll(rest);
    }
  }

  lemma LastOfEmpty()
    ensures SplitLast([]) == None
  {}

  /** What SplitLast accepts is a whole sequence at the end of the string. */
  lemma SplitLastMeans(s: seq<Byte>)
    requires SplitLast(s).Some?
    ensures var (rest, c) := SplitLast(s).value;
            |rest| < |s| && rest == s[..|rest|] && SplitFirst(s[|rest|..]) == Some((c, []))
  {
    hide SplitFirst, TrailingAtEnd;
  }

  lemma {:induction false} ValidThenPiece(s: seq<Byte>, piece: seq<Byte>)
    requires Valid(s) && SplitFirst(piece).Some? && SplitFirst(piece).value.1 == []
    ensures Valid(s + piece)
    decreases |s|
  {
    hide SplitFirst, SequenceLength;
    if s == [] {
      assert s + piece == piece;
    } else {
      SplitIgnoresRest(s);
      var len := SequenceLength(s[0]);
      ValidThenPiece(s[len..], piece);
      assert s + piece == s[..len] + (s[len..] + piece);
      PrependPiece(s[..len], s[len..] + piece);
    }
  }

  /** Reading from the end uses up the whole string if and only if the string is valid. */
  lemma {:induction false} PeelConsumesExactlyValid(s: seq<Byte>)
    ensures Peel(s).1 == [] <==> Valid(s)
    decreases |s|
  {
    hide SplitFirst, SplitLast;
    if Valid(s) {
      PeelReverses(s);
    } else if SplitLast(s).Some? {
      SplitLastMeans(s);
      var (rest, c) := SplitLast(s).value;
      PeelConsumesExactlyValid(rest);
      assert s == rest + s[|rest|..];
      if Valid(rest) {
        ValidThenPiece(rest, s[|rest|..]);
      }
    }
  }
}
