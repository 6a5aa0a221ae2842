/** The functions and iterators of src/base/util.cc that walk over UTF-8 strings, step by step. */
module Utf8Util {
  import opened Utf8
  import opened Utf8Strings

  /** Util::SplitFirstChar32: with a failure come 0 and the empty string. */
  method SplitFirstChar32(s: seq<Byte>) returns (ok: bool, firstChar32: Char32, rest: seq<Byte>)
    ensures ok <==> SplitFirst(s).Some?
    ensures ok ==> (firstChar32, rest) == SplitFirst(s).value
    ensures !ok ==> firstChar32 == 0 && rest == []
  {
    ok, firstChar32, rest := false, 0, [];
    if s == [] {
      return;
    }
    var leadingByte := s[0];
    var result, len, minValue, maxValue := Classify(leadingByte);
    if len == 0 {
      return;
    }
    hide SequenceLength, LeadingBits, IsTrailing, Shifted, Assemble, MinValue, MaxValue, Between, AllTrailing;
    if len == 1 {
      SingleByte(leadingByte);
      AssembleFew(result, s[1..1]);
      NoneTrailing();
      return true, result, s[1..];
    }
    if |s| < len {
      return;
    }
    var complete;
    complete, result := AddTrailing(s[1..len], result);
    if !complete {
      return;
    }
    if !Between(minValue, result, maxValue) {
      return;
    }
    return true, result, s[len..];
  }

  /** The loop of SplitFirstChar32 over the trailing bytes. */
  method AddTrailing(trailing: seq<Byte>, high: Char32) returns (complete: bool, result: Char32)
    ensures complete <==> AllTrailing(trailing)
    ensures complete ==> result == Assemble(high, trailing)
  {
    hide IsTrailing, Shifted;
    result := high;
    for i := 0 to |trailing|
      invariant AllTrailing(trailing[..i])
      invariant result == Assemble(high, trailing[..i])
    {
      if !IsTrailing(trailing[i]) {
        return false, result;
      }
      AssembleMore(high, trailing, i);
      result := Shifted(result, trailing[i]);
    }
    assert trailing[..|trailing|] == trailing;
    return true, result;
  }

  lemma NoneTrailing()
    ensures AllTrailing([])
  {}

  lemma SingleByte(b: Byte)
    requires SequenceLength(b) == 1
    ensures InRange(LeadingBits(b), 1)
  {}

  /** The tests of SplitFirstChar32 on the leading byte; the length is 0 when no sequence starts with it. */
  method Classify(b: Byte) returns (result: Char32, len: nat, minValue: Char32, maxValue: Char32)
    ensures len == SequenceLength(b)
    ensures len > 0 ==> result == LeadingBits(b)
    ensures len > 0 ==> minValue == MinValue(len) && maxValue == MaxValue(len)
  {
    result, len, minValue, maxValue := 0, 0, 0, 0xffffffff;
    if b < 0x80 {
      len, minValue, maxValue, result := 1, 0, 0x7f, b as Char32;
    } else if IsTrailing(b) {
    } else if b & 0xe0 == 0xc0 {
      len, minValue, maxValue, result := 2, 0x80, 0x7ff, (b & 0x1f) as Char32;
    } else if b & 0xf0 == 0xe0 {
      len, minValue, maxValue, result := 3, 0x800, 0xffff, (b & 0x0f) as Char32;
    } else if b & 0xf8 == 0xf0 {
      len, minValue, maxValue, result := 4, 0x10000, 0x1fffff, (b & 0x07) as Char32;
    } else if b & 0xfc == 0xf8 {
      len, minValue, maxValue, result := 5, 0x200000, 0x3ffffff, (b & 0x03) as Char32;
    } else if b & 0xfe == 0xfc {
      len, minValue, maxValue, result := 6, 0x4000000, 0x7fffffff, (b & 0x01) as Char32;
    }
  }

  /** Util::SplitLastChar32. */
  method SplitLastChar32(s: seq<Byte>) returns (ok: bool, rest: seq<Byte>, lastChar32: Char32)
    ensures ok <==> SplitLast(s).Some?
    ensures ok ==> (rest, lastChar32) == SplitLast(s).value
    ensures !ok ==> rest == [] && lastChar32 == 0
  {
    ok, rest, lastChar32 := false, [], 0;
    hide SplitFirst, IsTrailing;
    if s == [] {
      return;
    }
    var n := 0;
    assert s[..|s|] == s;
    while n < |s| && IsTrailing(s[|s| - 1 - n])
      invariant n <= |s|
      invariant TrailingAtEnd(s) == n + TrailingAtEnd(s[..|s| - n])
    {
      assert s[..|s| - n][..|s| - n - 1] == s[..|s| - n - 1];
      n := n + 1;
    }
    if n == |s| {
      return;
    }
    var lastPiece := s[|s| - n - 1..];
    var split, c, resultPiece := SplitFirstChar32(lastPiece);
    if !split || resultPiece != [] {
      return;
    }
    return true, s[..|s| - n - 1], c;
  }

  /** Util::Utf8ToUtf32. */
  method Utf8ToUtf32(str: seq<Byte>) returns (codepoints: seq<Char32>)
    ensures codepoints == DecodeAll(str)
  {
    hide SplitFirst;
    codepoints := [];
    var ok, codepoint, rest := SplitFirstChar32(str);
    while ok
      invariant ok ==> codepoints + [codepoint] + DecodeAll(rest) == DecodeAll(str)
      invariant !ok ==> codepoints == DecodeAll(str)
      decreases ok, |rest|
    {
      codepoints := codepoints + [codepoint];
      if SplitFirst(rest).Some? {
        SplitShortens(rest);
      }
      ok, codepoint, rest := SplitFirstChar32(rest);
    }
  }

  /** Util::Utf32ToUtf8. */
  method Utf32ToUtf8(str: seq<Char32>) returns (output: seq<Byte>)
    ensures output == EncodeAll(str)
  {
    hide Encode;
    output := [];
    assert str[0..] == str;
    for i := 0 to |str|
      invariant output + EncodeAll(str[i..]) == EncodeAll(str)
    {
      assert str[i..][1..] == str[i + 1..];
      output := CodepointToUtf8Append(str[i], output);
    }
  }

  /** Util::CodepointToUtf8Append, with the buffer of seven bytes. */
  method CodepointToUtf8Append(c: Char32, output: seq<Byte>) returns (longer: seq<Byte>)
    ensures longer == output + Encode(c)
  {
    var buf := new Byte[7];
    var mblen := CodepointToUtf8(c, buf);
    longer := output + buf[..mblen];
  }

  /** Util::CodepointToUtf8: fills the buffer and ends it with NUL. */
  method CodepointToUtf8(c: Char32, output: array<Byte>) returns (mblen: nat)
    requires output.Length >= 7
    modifies output
    ensures mblen <= 6 && output[..mblen] == Encode(c) && output[mblen] == 0
  {
    if c == 0 {
      output[0] := 0;
      return 0;
    }
    if c < 0x80 {
      output[0], output[1] := (c & 0xff) as Byte, 0;
      return 1;
    }
    hide Trail;
    if c < 0x800 {
      output[0] := (0xc0 + ((c >> 6) & 0x1f)) as Byte;
      output[1], output[2] := Trail(c), 0;
      return 2;
    }
    if c < 0x10000 {
      output[0] := (0xe0 + ((c >> 12) & 0x0f)) as Byte;
      output[1], output[2], output[3] := Trail(c >> 6), Trail(c), 0;
      return 3;
    }
    if c < 0x200000 {
      output[0] := (0xf0 + ((c >> 18) & 0x07)) as Byte;
      output[1], output[2], output[3], output[4] := Trail(c >> 12), Trail(c >> 6), Trail(c), 0;
      return 4;
    }
    if c < 0x8000000 {
      output[0] := (0xf8 + ((c >> 24) & 0x03)) as Byte;
      output[1], output[2], output[3], output[4] := Trail(c >> 18), Trail(c >> 12), Trail(c >> 6), Trail(c);
      output[5] := 0;
      return 5;
    }
    output[0] := (0xfc + ((c >> 30) & 0x01)) as Byte;
    output[1], output[2], output[3] := Trail(c >> 24), Trail(c >> 18), Trail(c >> 12);
    output[4], output[5], output[6] := Trail(c >> 6), Trail(c), 0;
    return 6;
  }

  /** Util::IsValidUtf8. */
  method IsValidUtf8(s: seq<Byte>) returns (valid: bool)
    ensures valid <==> Valid(s)
  {
    hide SplitFirst;
    var left := s;
    while left != []
      invariant Valid(left) <==> Valid(s)
      decreases |left|
    {
      var ok, c, rest := SplitFirstChar32(left);
      if !ok {
        return false;
      }
      SplitShortens(left);
      left := rest;
    }
    return true;
  }

  class ConstChar32Iterator {
    var utf8String: seq<Byte>
    var current: Char32
    var done: bool

    /** The codepoints still to come, with the current one. */
    ghost function Coming(): seq<Char32>
      reads this
    {
      if done then [] else [current] + DecodeAll(utf8String)
    }

    constructor (s: seq<Byte>)
      ensures Coming() == DecodeAll(s)
    {
      utf8String := s;
      current := 0;
      done := false;
      new;
      Next();
    }

    method Get() returns (c: Char32)
      requires !done
      ensures c == Coming()[0]
    {
      c := current;
    }

    method Next()
      modifies this
      ensures Coming() == if old(done) then [] else old(Coming())[1..]
    {
      hide SplitFirst;
      if !done {
        var ok;
        ok, current, utf8String := SplitFirstChar32(utf8String);
        done := !ok;
      }
    }

    predicate Done()
      reads this
    {
      done
    }
  }

  class ConstChar32ReverseIterator {
    var utf8String: seq<Byte>
    var current: Char32
    var done: bool

    /** The codepoints still to come, with the current one. */
    ghost function Coming(): seq<Char32>
      reads this
    {
      if done then [] else [current] + Peel(utf8String).0
    }

    constructor (s: seq<Byte>)
      ensures Coming() == Peel(s).0
      ensures Valid(s) ==> Coming() == Reversed(DecodeAll(s))
    {
      utf8String := s;
      current := 0;
      done := false;
      new;
      Next();
      if Valid(s) {
        PeelReverses(s);
      }
    }

    method Get() returns (c: Char32)
      requires !done
      ensures c == Coming()[0]
    {
      c := current;
    }

    method Next()
      modifies this
      ensures Coming() == if old(done) then [] else old(Coming())[1..]
    {
      hide SplitLast;
      if !done {
        var ok;
        ok, utf8String, current := SplitLastChar32(utf8String);
        done := !ok;
      }
    }

    predicate Done()
      reads this
    {
      done
    }
  }

  /** The loop that the forward iterator is made for. */
  method CollectForward(s: seq<Byte>) returns (cs: seq<Char32>)
    ensures cs == DecodeAll(s)
  {
    hide DecodeAll;
    cs := [];
    var it := new ConstChar32Iterator(s);
    while !it.Done()
      invariant fresh(it) && cs + it.Coming() == DecodeAll(s)
      decreases |it.Coming()|
    {
      var c := it.Get();
      cs := cs + [c];
      it.Next();
    }
  }

  /** The same loop with the reverse iterator. */
  method CollectBackward(s: seq<Byte>) returns (cs: seq<Char32>)
    ensures cs == Peel(s).0
    ensures Valid(s) ==> cs == Reversed(DecodeAll(s))
  {
    hide DecodeAll, Peel, Valid, Reversed;
    cs := [];
    var it := new ConstChar32ReverseIterator(s);
    while !it.Done()
      invariant fresh(it) && cs + it.Coming() == Peel(s).0
      decreases |it.Coming()|
    {
      var c := it.Get();
      cs := cs + [c];
      it.Next();
    }
    if Valid(s) {
      PeelReverses(s);
    }
  }
}
