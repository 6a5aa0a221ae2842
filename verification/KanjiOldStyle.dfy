/**
 The old-kanji entries of ArabicToKanji: which of them NormalizeNumbers accepts, and as what.
 */
module KanjiOldStyle {
  import opened CheckedArithmetic
  import opened KanjiPrinter
  import opened KanjiRoundTrip
  import opened KanjiText
  import opened NumberPrinter
  import opened NumberReader
  import opened Options

  /** No group prints a character that the data file does not list: no thousands, and no second group. */
  predicate OnlyListed(ds: Digits)
    requires |ds| % 4 == 0
  {
    ds == [] || (ds[0] == 0 && !(|ds| == 8 && GroupValue(ds[..4]) > 0) && OnlyListed(ds[4..]))
  }

  lemma AllCharsConcat(p: char -> bool, a: string, b: string)
    ensures AllChars(p, a + b) <==> AllChars(p, a) && AllChars(p, b)
  {
    assert forall i | 0 <= i < |a| :: (a + b)[i] == a[i];
    assert forall i | 0 <= i < |b| :: (a + b)[|a| + i] == b[i];
  }

  lemma {:induction false} ListedGroup(group: string, i: nat, leading: bool)
    requires |group| == 4 && AllAscii(group) && i <= 4
    ensures AllChars(Listed, GroupText(OldKanji, group, i, leading)) <==> i != 0 || group[0] == '0'
    decreases 4 - i
  {
    hide Piece, AllChars;
    if i == 4 {
      assert AllChars(Listed, "") by { NoChars(); }
    } else {
      ListedGroup(group, i + 1, leading && group[i] == '0');
      ListedPiece(OldKanji, group[i], i);
      AllCharsConcat(Listed, Piece(OldKanji, group[i], i), GroupText(OldKanji, group, i + 1, false));
    }
  }

  lemma NoChars()
    ensures AllChars(Listed, "")
  {}

  lemma {:induction false} ListedNumber(input: string)
    requires AllAscii(input) && |input| % 4 == 0 && |input| <= 20
    ensures AllChars(Listed, NumberText(OldKanji, input)) <==> OnlyListed(DigitsOf(input))
  {
    hide Piece, AllChars, GroupText, GroupValue, BiggerRankText;
    if input == "" {
      NoChars();
    } else {
      var group, big := GroupText(OldKanji, input[..4], 0, true), BiggerRankText(OldKanji, |input| / 4 - 1);
      var rest := NumberText(OldKanji, input[4..]);
      DigitsOfSplit(input);
      ListedNumber(input[4..]);
      ListedGroup(input[..4], 0, true);
      ListedBigRank(OldKanji, |input| / 4 - 1);
      GroupHasTokens(OldKanji, input[..4]);
      EmptyGroup(Old, DigitsOf(input[..4]));
      LengthOfTokens(FullTable, group);
      NoChars();
      AllCharsConcat(Listed, group, big);
      AllCharsConcat(Listed, group + big, rest);
      AllCharsConcat(Listed, "", rest);
    }
  }

  /**
   The old-kanji text is accepted exactly when the number fits, no group has 1 as its tens or
   hundreds digit, and every printed character is in the data file; it is then read correctly.
   */
  lemma OldTextRead(input: string, trim: bool)
    requires IsDecimalInteger(input) && |input| <= 20 && NumberOf(input) > 0
    ensures var text := NumberText(OldKanji, Filled(input)); var ds := DigitsOf(Filled(input));
            Normalize(text, trim) ==
            if NumberOf(input) <= MAX_U64 && AllReadable(Old, ds) && OnlyListed(ds)
            then Accepted(KanjiForm(text), Decimal(NumberOf(input))) else Rejected
  {
    hide NumberText, Decimal, Printed, ReadNumber, KanjiForm, TokensOf, Value, NumberOf, OnlyListed, AllReadable;
    var filled := Filled(input);
    var ds := DigitsOf(filled);
    FilledKeepsNumber(input);
    NumberHasTokens(OldKanji, filled);
    ListedTokens(NumberText(OldKanji, filled));
    ListedNumber(filled);
    ReadAny(NumberText(OldKanji, filled), Old, ds, trim);
  }

  // ---------------------------------------------------------------------------
  // The entry with one character for twenty
  // ---------------------------------------------------------------------------

  predicate StartsWithTen(s: string) {
    s != "" && s[0] == '拾'
  }

  /** The tokens of a group from position `i` on, with 20 for a two in the tens. */
  function TwentyFrom(g: Digits, i: nat): Tokens
    requires |g| == 4 && i <= 4
    decreases 4 - i
  {
    if i == 4 then []
    else (if i == 2 then TwentyPart(g[2]) else PieceTokens(OldKanji, g[i], i)) + TwentyFrom(g, i + 1)
  }

  lemma ReplaceOneChar(c: char, tail: string)
    requires c != '弐' || !StartsWithTen(tail)
    ensures ReplaceTwoTen([c] + tail) == [c] + ReplaceTwoTen(tail)
  {
    assert ([c] + tail)[1..] == tail && ([c] + tail)[..1] == [c];
  }

  /** The characters of an old-style piece. */
  lemma OldPieceShape(c: char, i: nat)
    requires IsAsciiDigit(c) && c != '0' && i < 4
    ensures var s := Piece(OldKanji, c, i);
            && |s| == (if i == 3 then 1 else 2)
            && s[0] != '拾' && (s[0] == '弐' <==> c == '2')
            && (i < 3 ==> s[1] != '弐' && (s[1] == '拾' <==> i == 2))
  {
    hide FullTable;
    OldDigitShape(DigitValue(c));
    OldRankShape(4 - i);
  }

  lemma OldDigitShape(d: nat)
    requires 1 <= d < 10
    ensures |OLD_NUMERALS[d]| == 1 && OLD_NUMERALS[d][0] != '拾' && (OLD_NUMERALS[d][0] == '弐' <==> d == 2)
  {}

  lemma OldRankShape(k: nat)
    requires 1 <= k < 5
    ensures |OLD_RANKS[k]| == if k == 1 then 0 else 1
    ensures k > 1 ==> OLD_RANKS[k][0] != '弐' && (OLD_RANKS[k][0] == '拾' <==> k == 2)
  {}

  /** Replacing inside one piece, in front of text that cannot complete a match. */
  lemma ReplacePiece(c: char, i: nat, tail: string)
    requires IsAsciiDigit(c) && i < 4 && !StartsWithTen(tail)
    ensures ReplaceTwoTen(Piece(OldKanji, c, i) + tail) ==
            (if i == 2 && c == '2' then "廿" else Piece(OldKanji, c, i)) + ReplaceTwoTen(tail)
  {
    hide Piece;
    if c == '0' {
      assert Piece(OldKanji, c, i) == "" by { ZeroPiece(i); }
      assert "" + tail == tail && "" + ReplaceTwoTen(tail) == ReplaceTwoTen(tail);
    } else {
      OldPieceShape(c, i);
      var s := Piece(OldKanji, c, i);
      if i == 3 {
        assert s == [s[0]];
        ReplaceOneChar(s[0], tail);
      } else if i == 2 && c == '2' {
        assert (s + tail)[2..] == tail;
      } else {
        assert s == [s[0]] + [s[1]] && s + tail == [s[0]] + ([s[1]] + tail);
        ReplaceOneChar(s[0], [s[1]] + tail);
        ReplaceOneChar(s[1], tail);
        assert [s[0]] + ([s[1]] + ReplaceTwoTen(tail)) == s + ReplaceTwoTen(tail);
      }
    }
  }

  lemma ZeroPiece(i: nat)
    requires i < 4
    ensures Piece(OldKanji, '0', i) == ""
  {}

  lemma PieceReplacedTokens(c: char, i: nat)
    requires IsAsciiDigit(c) && i < 4
    ensures TokensOf(FullTable, if i == 2 && c == '2' then "廿" else Piece(OldKanji, c, i)) ==
            Some(if i == 2 then TwentyPart(DigitValue(c)) else PieceTokens(OldKanji, DigitValue(c), i))
  {
    hide TokensOf, Piece, FullTable;
    if i == 2 && c == '2' {
      CharToken(FullTable, '廿');
      assert FullTable('廿') == Some(20) by { TwentyToken(); }
    } else {
      PieceHasTokens(OldKanji, c, i);
    }
  }

  lemma TwentyToken()
    ensures FullTable('廿') == Some(20)
  {}

  lemma PieceDoesNotStartWithTen(c: char, i: nat, tail: string)
    requires IsAsciiDigit(c) && i < 4 && !StartsWithTen(tail)
    ensures !StartsWithTen(Piece(OldKanji, c, i) + tail)
  {
    hide Piece;
    if c == '0' {
      ZeroPiece(i);
    } else {
      OldPieceShape(c, i);
    }
  }

  /** Replacing in one piece and in what follows it, given the tokens of what follows. */
  lemma PieceReplaced(c: char, i: nat, tail: string, more: Tokens)
    requires IsAsciiDigit(c) && i < 4 && !StartsWithTen(tail) && TokensOf(FullTable, ReplaceTwoTen(tail)) == Some(more)
    ensures var text := Piece(OldKanji, c, i) + tail;
            && !StartsWithTen(text)
            && TokensOf(FullTable, ReplaceTwoTen(text)) ==
               Some((if i == 2 then TwentyPart(DigitValue(c)) else PieceTokens(OldKanji, DigitValue(c), i)) + more)
  {
    hide TokensOf, Piece, FullTable, ReplaceTwoTen, StartsWithTen, PieceTokens, TwentyPart;
    ReplacePiece(c, i, tail);
    PieceDoesNotStartWithTen(c, i, tail);
    PieceReplacedTokens(c, i);
    TokensOfConcat(FullTable, if i == 2 && c == '2' then "廿" else Piece(OldKanji, c, i), ReplaceTwoTen(tail));
  }

  /** Replacing in a group and in what follows it. */
  lemma {:induction false} GroupReplaced(group: string, i: nat, leading: bool, rest: string, u: Tokens)
    requires |group| == 4 && AllAscii(group) && i <= 4
    requires !StartsWithTen(rest) && TokensOf(FullTable, ReplaceTwoTen(rest)) == Some(u)
    ensures var text := GroupText(OldKanji, group, i, leading) + rest;
            && !StartsWithTen(text)
            && TokensOf(FullTable, ReplaceTwoTen(text)) == Some(TwentyFrom(DigitsOf(group), i) + u)
    decreases 4 - i
  {
    hide TokensOf, Piece, FullTable, ReplaceTwoTen, StartsWithTen, PieceTokens, TwentyPart;
    if i == 4 {
      assert "" + rest == rest && [] + u == u;
    } else {
      var c, g := group[i], DigitsOf(group);
      var after := GroupText(OldKanji, group, i + 1, leading && c == '0');
      var part := if i == 2 then TwentyPart(g[i]) else PieceTokens(OldKanji, g[i], i);
      GroupReplaced(group, i + 1, leading && c == '0', rest, u);
      Regroup(part, TwentyFrom(g, i + 1), u);
      if leading && c == '0' {
        ZeroTokens(i);
        assert [] + (TwentyFrom(g, i + 1) + u) == TwentyFrom(g, i + 1) + u;
      } else {
        PieceReplaced(c, i, after + rest, TwentyFrom(g, i + 1) + u);
        assert (Piece(OldKanji, c, i) + after) + rest == Piece(OldKanji, c, i) + (after + rest);
      }
    }
  }

  lemma Regroup(a: Tokens, b: Tokens, c: Tokens)
    ensures (a + b) + c == a + (b + c)
  {}

  lemma ZeroTokens(i: nat)
    requires i < 4
    ensures PieceTokens(OldKanji, 0, i) == [] && TwentyPart(0) == []
  {}

  lemma TwentyFromIsGroup(g: Digits)
    requires |g| == 4
    ensures TwentyFrom(g, 0) == TwentyGroup(g)
  {
    hide OldPart, OnesPart, TwentyPart;
    assert TwentyFrom(g, 4) == [];
    assert TwentyFrom(g, 3) == OnesPart(g[3]) + [] == OnesPart(g[3]);
    assert TwentyFrom(g, 2) == TwentyPart(g[2]) + OnesPart(g[3]);
    assert TwentyFrom(g, 1) == OldPart(g[1], 100) + TwentyFrom(g, 2);
  }

  lemma OldBigRankChar(rank: nat)
    requires rank < 5
    ensures var s := BiggerRankText(OldKanji, rank);
            if rank == 0 then s == "" else |s| == 1 && s[0] != '弐' && s[0] != '拾'
  {}

  lemma BigRankReplaced(rank: nat, rest: string, u: Tokens)
    requires rank < 5 && !StartsWithTen(rest) && TokensOf(FullTable, ReplaceTwoTen(rest)) == Some(u)
    ensures var text := BiggerRankText(OldKanji, rank) + rest;
            !StartsWithTen(text) && TokensOf(FullTable, ReplaceTwoTen(text)) == Some(BigRank(rank) + u)
  {
    hide TokensOf, FullTable, ReplaceTwoTen, BiggerRankText, BigRank;
    var s := BiggerRankText(OldKanji, rank);
    OldBigRankChar(rank);
    BiggerRankTokens(OldKanji, rank);
    if rank == 0 {
      assert s + rest == rest;
      NoTokens(FullTable);
      assert [] + u == u;
    } else {
      assert s == [s[0]];
      ReplaceOneChar(s[0], rest);
      TokensOfConcat(FullTable, s, ReplaceTwoTen(rest));
    }
  }

  /** Replacing in the whole text gives the tokens of the notation with twenty. */
  lemma {:induction false} NumberReplaced(input: string)
    requires AllAscii(input) && |input| % 4 == 0 && |input| <= 20
    ensures var text := NumberText(OldKanji, input);
            !StartsWithTen(text) && TokensOf(FullTable, ReplaceTwoTen(text)) == Some(Printed(Twenty, DigitsOf(input)))
  {
    hide TokensOf, FullTable, StartsWithTen, GroupText, BiggerRankText, BigRank, DigitsOf, GroupValue, ReplaceTwoTen, TwentyGroup;
    if input == "" {
      assert ReplaceTwoTen("") == "" && !StartsWithTen("") by { NothingToReplace(); }
      NoTokens(FullTable);
    } else {
      var rest, u := NumberText(OldKanji, input[4..]), Printed(Twenty, DigitsOf(input[4..]));
      DigitsOfSplit(input);
      NumberReplaced(input[4..]);
      FirstGroupReplaced(input[..4], |input| / 4 - 1, rest, u);
    }
  }

  lemma NothingToReplace()
    ensures ReplaceTwoTen("") == "" && !StartsWithTen("")
  {}

  lemma FirstGroupReplaced(group: string, rank: nat, rest: string, u: Tokens)
    requires |group| == 4 && AllAscii(group) && rank < 5
    requires !StartsWithTen(rest) && TokensOf(FullTable, ReplaceTwoTen(rest)) == Some(u)
    ensures var text := GroupText(OldKanji, group, 0, true); var g := DigitsOf(group);
            var all := (if text == "" then "" else text + BiggerRankText(OldKanji, rank)) + rest;
            && !StartsWithTen(all)
            && TokensOf(FullTable, ReplaceTwoTen(all)) ==
               Some(if GroupValue(g) == 0 then u else TwentyGroup(g) + (BigRank(rank) + u))
  {
    hide TokensOf, FullTable, StartsWithTen, ReplaceTwoTen, GroupText, BiggerRankText, BigRank, GroupValue, TwentyGroup;
    var text, g, big := GroupText(OldKanji, group, 0, true), DigitsOf(group), BiggerRankText(OldKanji, rank);
    GroupHasTokens(OldKanji, group);
    EmptyGroup(Old, g);
    LengthOfTokens(FullTable, text);
    if text == "" {
      assert "" + rest == rest;
    } else {
      BigRankReplaced(rank, rest, u);
      GroupReplaced(group, 0, true, big + rest, BigRank(rank) + u);
      TwentyFromIsGroup(g);
      assert text + big + rest == text + (big + rest);
    }
  }

  lemma {:induction false} ListedReplaced(s: string)
    ensures AllChars(Listed, ReplaceTwoTen(s)) <==> AllChars(Listed, s)
    decreases |s|
  {
    hide AllChars;
    if s == "" {
    } else if |s| >= 2 && s[0] == '弐' && s[1] == '拾' {
      ListedReplaced(s[2..]);
      AllCharsConcat(Listed, "廿", ReplaceTwoTen(s[2..]));
      assert s == "弐拾" + s[2..];
      AllCharsConcat(Listed, "弐拾", s[2..]);
      assert AllChars(Listed, "廿") && AllChars(Listed, "弐拾") by { TwentyListed(); }
    } else {
      ListedReplaced(s[1..]);
      AllCharsConcat(Listed, s[..1], ReplaceTwoTen(s[1..]));
      assert s == s[..1] + s[1..];
      AllCharsConcat(Listed, s[..1], s[1..]);
    }
  }

  lemma TwentyListed()
    ensures AllChars(Listed, "廿") && AllChars(Listed, "弐拾")
  {}

  /** The entry with 廿 is accepted in exactly the same cases, and read as the same number. */
  lemma TwentyTextRead(input: string, trim: bool)
    requires IsDecimalInteger(input) && |input| <= 20 && NumberOf(input) > 0
    ensures var text := ReplaceTwoTen(NumberText(OldKanji, Filled(input))); var ds := DigitsOf(Filled(input));
            Normalize(text, trim) ==
            if NumberOf(input) <= MAX_U64 && AllReadable(Old, ds) && OnlyListed(ds)
            then Accepted(KanjiForm(text), Decimal(NumberOf(input))) else Rejected
  {
    hide NumberText, Decimal, Printed, KanjiForm, TokensOf, Value, NumberOf, OnlyListed, AllReadable, ReplaceTwoTen, AllChars;
    var filled := Filled(input);
    var ds, text := DigitsOf(filled), NumberText(OldKanji, filled);
    FilledKeepsNumber(input);
    NumberReplaced(filled);
    ListedReplaced(text);
    ListedTokens(ReplaceTwoTen(text));
    ListedNumber(filled);
    SameReadable(ds);
    ReadAny(ReplaceTwoTen(text), Twenty, ds, trim);
  }

  lemma {:induction false} SameReadable(ds: Digits)
    requires |ds| % 4 == 0
    ensures AllReadable(Old, ds) == AllReadable(Twenty, ds)
    decreases |ds|
  {
    if ds != [] {
      SameReadable(ds[4..]);
    }
  }

  // ---------------------------------------------------------------------------
  // All entries
  // ---------------------------------------------------------------------------

  /** The extra one-character entries for 10 and 1000: the second is never accepted. */
  lemma SingleKanji(trim: bool)
    ensures Normalize("拾", trim) == Accepted("拾", Decimal(10))
    ensures Normalize("阡", trim) == Rejected
  {
    hide Decimal, ReadNumber, TokensOf;
    CharToken(TokenOf, '拾');
    CharToken(TokenOf, '阡');
    ReadTen();
    assert KanjiForm("拾") == "拾" by { TenForm(); }
    assert LeadingZeros([10]) == 0;
    assert seq(0, _ => '0') + Decimal(10) == Decimal(10) && "" + Decimal(10) == Decimal(10);
  }

  lemma TenForm()
    ensures KanjiForm("拾") == "拾"
  {}

  lemma ReadTen()
    ensures ReadNumber([10]) == (true, 10)
  {
    hide ReduceDigits;
    NotForFails([10], 1000);
    NotForFails([10], 100);
    RankRead(10, 10, []);
    assert [10] + [] == [10];
    assert ReduceGroup([10]) == Reduced(true, [], 10);
  }

  lemma ReadZero(trim: bool)
    ensures Normalize("零", trim) == Accepted("零", "0")
  {
    hide TokensOf;
    CharToken(TokenOf, '零');
    assert ReadNumber([0]) == (true, 0) by { ReadZeroToken(); }
    assert KanjiForm("零") == "零" by { ZeroForm(); }
    assert seq(0, _ => '0') + Decimal(0) == "0";
  }

  lemma ZeroForm()
    ensures KanjiForm("零") == "零"
  {}

  lemma ReadZeroToken()
    ensures ReadNumber([0]) == (true, 0)
  {
    assert [0][1..] == [];
    assert ReduceBase10([0], 0) == ReduceBase10([], 0);
  }

  lemma NumberOfTen(input: string)
    requires AllAscii(input) && Filled(input) == "0010"
    ensures NumberOf(input) == 10
  {
    var ds: Digits := DigitsOf(Filled(input));
    FilledKeepsNumber(input);
    assert ds[0] == 0 && ds[1] == 0 && ds[2] == 1 && ds[3] == 0;
    assert ds[4..] == [] && ds[..4] == ds;
  }

  lemma {:induction false} NumberOfZeros(ds: Tokens)
    requires forall i | 0 <= i < |ds| :: ds[i] == 0
    ensures Positional(ds, 0) == 0
  {
    if ds != [] {
      NumberOfZeros(ds[1..]);
    }
  }

  lemma {:induction false} ZeroNumberIsZeros(ds: Tokens)
    requires Positional(ds, 0) == 0
    ensures forall i | 0 <= i < |ds| :: ds[i] == 0
  {
    if ds != [] {
      PositionalGrows(ds[1..], ds[0]);
      ZeroNumberIsZeros(ds[1..]);
    }
  }

  /** Nothing ArabicToKanji produces, in any style, is ever read back as a different number. */
  lemma NeverMisread(input: string, e: NumberString, trim: bool)
    requires e in Converted(input).1
    ensures IsDecimalInteger(input)
    ensures Normalize(e.value, trim) == Rejected
         || Normalize(e.value, trim) == Accepted(KanjiForm(e.value), Decimal(NumberOf(input)))
  {
    hide NumberText, Decimal, KanjiForm, NumberOf, OnlyListed, AllReadable, ReplaceTwoTen, HasTwoTen, Normalize;
    if forall i | 0 <= i < |input| :: input[i] == '0' {
      assert NumberOf(input) == 0 by { NumberOfZeroText(input); }
      ReadZero(trim);
      assert KanjiForm("零") == "零" && Decimal(0) == "0" by { ZeroForm(); ZeroInDecimal(); }
    } else {
      NonZeroText(input);
      TextRoundTrip(HalfWidth, input, trim);
      TextRoundTrip(FullWidth, input, trim);
      TextRoundTrip(KanjiStyle, input, trim);
      OldTextRead(input, trim);
      TwentyTextRead(input, trim);
      SingleKanji(trim);
      assert KanjiForm("拾") == "拾" by { TenForm(); }
      if Filled(input) == "0010" {
        NumberOfTen(input);
      }
      EntryKinds(input, e);
    }
  }

  lemma NumberOfZeroText(input: string)
    requires AllAscii(input) && forall i | 0 <= i < |input| :: input[i] == '0'
    ensures NumberOf(input) == 0
  {
    NumberOfZeros(DigitsOf(input));
  }

  lemma NonZeroText(input: string)
    requires AllAscii(input) && exists i | 0 <= i < |input| :: input[i] != '0'
    ensures NumberOf(input) > 0
  {
    if NumberOf(input) == 0 {
      ZeroNumberIsZeros(DigitsOf(input));
    }
  }

  /** The entries of a nonzero number, one kind at a time. */
  lemma EntryKinds(input: string, e: NumberString)
    requires e in Converted(input).1 && exists i | 0 <= i < |input| :: input[i] != '0'
    ensures |input| <= 20 && AllAscii(input)
    ensures var f := Filled(input);
            || e.value == NumberText(HalfWidth, f) || e.value == NumberText(FullWidth, f)
            || e.value == NumberText(KanjiStyle, f) || e.value == NumberText(OldKanji, f)
            || e.value == ReplaceTwoTen(NumberText(OldKanji, f)) || (e.value == "拾" && f == "0010") || (e.value == "阡" && f == "1000")
  {
    hide NumberText, ReplaceTwoTen, HasTwoTen;
  }
}
