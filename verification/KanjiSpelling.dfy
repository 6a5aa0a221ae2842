/**
 How ArabicToKanji spells a number: which characters it writes, which of them may stand side by
 side, how its styles differ, and that the characters mean the number however large it is.
 */
module KanjiSpelling {
  import opened CheckedArithmetic
  import opened KanjiOldStyle
  import opened KanjiPrinter
  import opened KanjiRoundTrip
  import opened KanjiText
  import opened NumberMeaning
  import opened NumberPrinter
  import opened NumberReader
  import opened Options

  // ---------------------------------------------------------------------------
  // The printed characters mean the number
  // ---------------------------------------------------------------------------

  /** Reading the characters of `text` by the rules of the notation gives `n`. */
  predicate Means(text: string, n: nat) {
    match TokensOf(FullTable, text)
    case None => false
    case Some(ts) => Meaning(ts, 0, 0, 0) == n
  }

  lemma PartMeans(part: Tokens, x: U64, base: U64, rest: Tokens, group: nat, total: nat)
    requires IsBase(base) && x < 10 && (ReadsAs(part, x, base) || part == OldPart(x, base))
    ensures Meaning(part + rest, 0, group, total) == Meaning(rest, 0, group + x * base, total)
  {
    if x == 0 {
      assert part + rest == rest;
    } else if |part| == 1 {
      assert (part + rest)[1..] == rest;
    } else {
      assert (part + rest)[1..] == [base] + rest && ([base] + rest)[1..] == rest;
      assert Meaning(part + rest, 0, group, total) == Meaning([base] + rest, x, group, total);
    }
  }

  lemma OnesMeans(x: U64, rest: Tokens, group: nat, total: nat)
    requires x < 10 && GroupOver(rest)
    ensures Meaning(OnesPart(x) + rest, 0, group, total) == Meaning(rest, 0, group + x, total)
  {
    if x == 0 {
      assert OnesPart(x) + rest == rest;
    } else {
      assert (OnesPart(x) + rest)[1..] == rest;
      PendingAtEnd(rest, x, group, total);
    }
  }

  lemma PartsMean(g: Digits, k: Tokens, h: Tokens, t: Tokens, rest: Tokens, total: nat)
    requires |g| == 4 && GroupOver(rest)
    requires ReadsAs(k, g[0], 1000) || k == OldPart(g[0], 1000)
    requires ReadsAs(h, g[1], 100) || h == OldPart(g[1], 100)
    requires ReadsAs(t, g[2], 10) || t == OldPart(g[2], 10)
    ensures Meaning(k + (h + (t + (OnesPart(g[3]) + rest))), 0, 0, total) == Meaning(rest, 0, GroupValue(g), total)
  {
    hide Meaning, ReadsAs;
    var s3 := OnesPart(g[3]) + rest;
    PartMeans(k, g[0], 1000, h + (t + s3), 0, total);
    PartMeans(h, g[1], 100, t + s3, g[0] * 1000, total);
    PartMeans(t, g[2], 10, s3, g[0] * 1000 + g[1] * 100, total);
    OnesMeans(g[3], rest, g[0] * 1000 + g[1] * 100 + g[2] * 10, total);
  }

  lemma GroupMeans(n: Notation, g: Digits, rest: Tokens, total: nat)
    requires |g| == 4 && GroupOver(rest)
    ensures Meaning(n.Group(g) + rest, 0, 0, total) == Meaning(rest, 0, GroupValue(g), total)
  {
    hide Meaning, SkipZeros, Positional, Run, GroupValue;
    match n {
      case Mixed =>
        var t: Digits := SkipZeros(g);
        RunOfDigits(t, rest);
        RunMeaning(t + rest, 0, 0, total);
        assert (t + rest)[|t|..] == rest;
        SkipZerosKeepsValue(g);
        PositionalOfGroup(g);
        PendingAtEnd(rest, GroupValue(g), 0, total);
      case Kanji =>
        Reassociate(KanjiPart(g[0], 1000), KanjiPart(g[1], 100), KanjiPart(g[2], 10), OnesPart(g[3]), rest);
        PartsMean(g, KanjiPart(g[0], 1000), KanjiPart(g[1], 100), KanjiPart(g[2], 10), rest, total);
      case Old =>
        Reassociate(OldPart(g[0], 1000), OldPart(g[1], 100), OldPart(g[2], 10), OnesPart(g[3]), rest);
        PartsMean(g, OldPart(g[0], 1000), OldPart(g[1], 100), OldPart(g[2], 10), rest, total);
      case Twenty =>
        Reassociate(OldPart(g[0], 1000), OldPart(g[1], 100), TwentyPart(g[2]), OnesPart(g[3]), rest);
        PartsMean(g, OldPart(g[0], 1000), OldPart(g[1], 100), TwentyPart(g[2]), rest, total);
    }
  }

  lemma BigRankMeans(rank: nat, rest: Tokens, group: nat, total: nat)
    requires rank < 5 && (rank == 0 ==> rest == [])
    ensures GroupOver(BigRank(rank) + rest)
    ensures Meaning(BigRank(rank) + rest, 0, group, total) == Meaning(rest, 0, 0, total + group * Pow10000(rank))
  {
    if rank == 0 {
      assert BigRank(rank) + rest == [];
    } else {
      RankFits(rank);
      assert (BigRank(rank) + rest)[1..] == rest;
    }
  }

  /** The tokens printed for a number mean it, in every notation and for every number. */
  lemma {:induction false} PrintedMeans(n: Notation, ds: Digits, total: nat)
    requires |ds| % 4 == 0 && |ds| <= 20
    ensures Meaning(Printed(n, ds), 0, 0, total) == total + Value(ds)
    decreases |ds|
  {
    hide Meaning, GroupValue, BigRank, Pow10000;
    if ds == [] {
      assert Meaning([], 0, 0, total) == total by { NothingMeans(total); }
    } else {
      var g, rank, rest := ds[..4], |ds| / 4 - 1, Printed(n, ds[4..]);
      if GroupValue(g) == 0 {
        PrintedMeans(n, ds[4..], total);
      } else {
        PrintedMeans(n, ds[4..], total + GroupValue(g) * Pow10000(rank));
        BigRankMeans(rank, rest, GroupValue(g), total);
        GroupMeans(n, g, BigRank(rank) + rest, total);
      }
    }
  }

  lemma NothingMeans(total: nat)
    ensures Meaning([], 0, 0, total) == total
  {}

  lemma TextMeans(style: Style, input: string)
    requires AllAscii(input) && |input| <= 20
    ensures Means(NumberText(style, Filled(input)), NumberOf(input))
  {
    hide TokensOf, Meaning, NumberText, Printed, Value, NumberOf;
    NumberHasTokens(style, Filled(input));
    PrintedMeans(style.Notation(), DigitsOf(Filled(input)), 0);
    FilledKeepsNumber(input);
  }

  lemma TwentyTextMeans(input: string)
    requires AllAscii(input) && |input| <= 20
    ensures Means(ReplaceTwoTen(NumberText(OldKanji, Filled(input))), NumberOf(input))
  {
    hide TokensOf, Meaning, NumberText, Printed, Value, NumberOf, ReplaceTwoTen;
    NumberReplaced(Filled(input));
    PrintedMeans(Twenty, DigitsOf(Filled(input)), 0);
    FilledKeepsNumber(input);
  }

  // ---------------------------------------------------------------------------
  // Which characters a style writes
  // ---------------------------------------------------------------------------

  predicate BigKanji(c: char) {
    c == '万' || c == '億' || c == '兆' || c == '京'
  }

  predicate OldBigKanji(c: char) {
    c == '萬' || c == '億' || c == '兆' || c == '京'
  }

  predicate Numeral(c: char) {
    c in "一二三四五六七八九"
  }

  predicate OldNumeral(c: char) {
    c in "壱弐参四五六七八九"
  }

  predicate RankKanji(c: char) {
    c == '十' || c == '百' || c == '千'
  }

  predicate OldRankKanji(c: char) {
    c == '拾' || c == '百' || c == '阡'
  }

  function Alphabet(style: Style): char -> bool {
    match style
    case HalfWidth => (c: char) => '0' <= c <= '9' || BigKanji(c)
    case FullWidth => (c: char) => '０' <= c <= '９' || BigKanji(c)
    case KanjiStyle => (c: char) => Numeral(c) || RankKanji(c) || BigKanji(c)
    case OldKanji => (c: char) => OldNumeral(c) || OldRankKanji(c) || OldBigKanji(c)
  }

  lemma DigitInAlphabet(style: Style, d: nat)
    requires 1 <= d < 10 || (d == 0 && style.Mixed())
    ensures AllChars(Alphabet(style), DigitText(style, d))
  {}

  lemma RankInAlphabet(style: Style, k: nat)
    requires k < 5
    ensures !style.Mixed() ==> AllChars(Alphabet(style), RankText(style, k))
    ensures AllChars(Alphabet(style), BiggerRankText(style, k))
  {}

  lemma PieceInAlphabet(style: Style, c: char, i: nat)
    requires IsAsciiDigit(c) && i < 4
    ensures AllChars(Alphabet(style), Piece(style, c, i))
  {
    hide DigitText, RankText, Alphabet;
    if c != '0' || style.Mixed() {
      DigitInAlphabet(style, DigitValue(c));
      RankInAlphabet(style, 4 - i);
    }
  }

  lemma TextInAlphabet(style: Style, input: string)
    requires AllAscii(input) && |input| % 4 == 0 && |input| <= 20
    ensures AllChars(Alphabet(style), NumberText(style, input))
  {
    hide Alphabet, Piece, NumberText, BiggerRankText;
    forall c, i: nat | IsAsciiDigit(c) && i < 4
      ensures AllChars(Alphabet(style), Piece(style, c, i))
    {
      PieceInAlphabet(style, c, i);
    }
    forall rank: nat | rank < 5
      ensures AllChars(Alphabet(style), BiggerRankText(style, rank))
    {
      RankInAlphabet(style, rank);
    }
    NumberChars(style, input, Alphabet(style));
  }

  // ---------------------------------------------------------------------------
  // Which characters may stand side by side
  // ---------------------------------------------------------------------------

  /** Two numerals never meet, and a one is not written before a rank. */
  ghost predicate KanjiSpelled(s: string) {
    forall i | 0 <= i < |s| - 1 && Numeral(s[i]) :: BigKanji(s[i + 1]) || (RankKanji(s[i + 1]) && s[i] != '一')
  }

  lemma KanjiPieceShape(c: char, i: nat)
    requires IsAsciiDigit(c) && i < 4
    ensures var s := Piece(KanjiStyle, c, i);
            if c == '0' then s == ""
            else if i == 3 then |s| == 1
            else if c == '1' then |s| == 1 && !Numeral(s[0])
            else |s| == 2 && RankKanji(s[1]) && !Numeral(s[1]) && s[0] != '一'
  {
    hide Alphabet;
    KanjiDigitShape(DigitValue(c));
    KanjiRankShape(4 - i);
  }

  lemma KanjiDigitShape(d: nat)
    requires d < 10
    ensures |KANJI_NUMERALS[d]| == 1 && (KANJI_NUMERALS[d] == "一" <==> d == 1)
  {}

  lemma KanjiRankShape(k: nat)
    requires 1 <= k < 5
    ensures if k == 1 then RANKS[k] == "" else |RANKS[k]| == 1 && RankKanji(RANKS[k][0]) && !Numeral(RANKS[k][0])
  {}

  lemma KanjiSpelledCons(c: char, s: string)
    requires KanjiSpelled(s)
    requires Numeral(c) && s != "" ==> BigKanji(s[0]) || (RankKanji(s[0]) && c != '一')
    ensures KanjiSpelled([c] + s)
  {
    hide Numeral, RankKanji, BigKanji;
    var t := [c] + s;
    forall i | 0 <= i < |t| - 1 && Numeral(t[i])
      ensures BigKanji(t[i + 1]) || (RankKanji(t[i + 1]) && t[i] != '一')
    {
      assert i > 0 ==> t[i] == s[i - 1] && t[i + 1] == s[i];
    }
  }

  lemma KanjiPieceSpelled(c: char, i: nat, tail: string)
    requires IsAsciiDigit(c) && i < 4 && KanjiSpelled(tail) && (i == 3 ==> tail == "" || BigKanji(tail[0]))
    ensures KanjiSpelled(Piece(KanjiStyle, c, i) + tail)
  {
    hide Piece, Numeral, RankKanji, BigKanji, KanjiSpelled;
    KanjiPieceShape(c, i);
    var piece := Piece(KanjiStyle, c, i);
    if |piece| == 0 {
      assert piece + tail == tail;
    } else if |piece| == 1 {
      assert piece == [piece[0]];
      KanjiSpelledCons(piece[0], tail);
    } else {
      KanjiSpelledCons(piece[1], tail);
      KanjiSpelledCons(piece[0], [piece[1]] + tail);
      assert piece + tail == [piece[0]] + ([piece[1]] + tail);
    }
  }

  lemma {:induction false} KanjiGroupSpelled(group: string, i: nat, leading: bool, rest: string)
    requires |group| == 4 && AllAscii(group) && i <= 4
    requires KanjiSpelled(rest) && (rest == "" || BigKanji(rest[0]))
    ensures KanjiSpelled(GroupText(KanjiStyle, group, i, leading) + rest)
    decreases 4 - i
  {
    hide Piece, BigKanji, KanjiSpelled;
    if i == 4 {
      assert "" + rest == rest;
    } else {
      KanjiGroupSpelled(group, i + 1, leading && group[i] == '0', rest);
      if !(leading && group[i] == '0') {
        var piece, after := Piece(KanjiStyle, group[i], i), GroupText(KanjiStyle, group, i + 1, false);
        assert i == 3 ==> after + rest == rest;
        KanjiPieceSpelled(group[i], i, after + rest);
        assert (piece + after) + rest == piece + (after + rest);
      }
    }
  }

  lemma BigRankShape(style: Style, rank: nat)
    requires rank < 5 && !style.OldKanji?
    ensures var s := BiggerRankText(style, rank);
            if rank == 0 then s == ""
            else |s| == 1 && BigKanji(s[0]) && !Numeral(s[0]) && !Figure(s[0])
  {}

  lemma {:induction false} KanjiTextSpelled(input: string)
    requires AllAscii(input) && |input| % 4 == 0 && |input| <= 20
    ensures KanjiSpelled(NumberText(KanjiStyle, input))
  {
    hide GroupText, BiggerRankText, Numeral, RankKanji, BigKanji;
    if input != "" {
      var group, big := GroupText(KanjiStyle, input[..4], 0, true), BiggerRankText(KanjiStyle, |input| / 4 - 1);
      var rest := NumberText(KanjiStyle, input[4..]);
      KanjiTextSpelled(input[4..]);
      BigRankShape(KanjiStyle, |input| / 4 - 1);
      assert |input| == 4 ==> rest == "";
      KanjiGroupSpelled(input[..4], 0, true, big + rest);
      assert group + big + rest == group + (big + rest);
      assert "" + rest == rest;
    }
  }

  /** A digit of either width. */
  predicate Figure(c: char) {
    '0' <= c <= '9' || '０' <= c <= '９'
  }

  predicate FiveFigures(s: string, i: nat)
    requires i + 5 <= |s|
  {
    Figure(s[i]) && Figure(s[i + 1]) && Figure(s[i + 2]) && Figure(s[i + 3]) && Figure(s[i + 4])
  }

  /** A zero stands behind another digit only, and at most four digits stand in a row. */
  ghost predicate MixedSpelled(s: string) {
    && (forall i | 0 <= i < |s| && (s[i] == '0' || s[i] == '０') :: i > 0 && Figure(s[i - 1]))
    && (forall i | 0 <= i < |s| - 4 :: !FiveFigures(s, i))
  }

  lemma MixedPieceShape(style: Style, c: char, i: nat)
    requires IsAsciiDigit(c) && i < 4 && style.Mixed()
    ensures var s := Piece(style, c, i);
            |s| == 1 && Figure(s[0]) && (c != '0' ==> s[0] != '0' && s[0] != '０')
  {}

  lemma {:induction false} MixedGroupShape(style: Style, group: string, i: nat, leading: bool)
    requires |group| == 4 && AllAscii(group) && i <= 4 && style.Mixed()
    ensures var s := GroupText(style, group, i, leading);
            && |s| <= 4 - i && AllChars(Figure, s)
            && (leading && s != "" ==> s[0] != '0' && s[0] != '０')
    decreases 4 - i
  {
    hide Piece, Figure;
    if i < 4 {
      MixedGroupShape(style, group, i + 1, leading && group[i] == '0');
      MixedPieceShape(style, group[i], i);
    }
  }

  lemma MixedSpelledConcat(group: string, big: string, rest: string)
    requires |group| <= 4 && AllChars(Figure, group) && (group != "" ==> group[0] != '0' && group[0] != '０')
    requires if big == "" then rest == "" else |big| == 1 && !Figure(big[0]) && big[0] != '0' && big[0] != '０'
    requires MixedSpelled(rest)
    ensures MixedSpelled(group + big + rest)
  {
    hide Figure;
    var s, n := group + big + rest, |group| + |big|;
    forall i | 0 <= i < |s| && (s[i] == '0' || s[i] == '０')
      ensures i > 0 && Figure(s[i - 1])
    {
      if i >= n {
        assert s[i] == rest[i - n] && s[i - 1] == rest[i - n - 1];
      }
    }
    forall i | 0 <= i < |s| - 4
      ensures !FiveFigures(s, i)
    {
      if i <= |group| {
        assert !Figure(s[|group|]);
      } else {
        assert s[n..] == rest && !FiveFigures(rest, i - n);
        assert forall k | i <= k < i + 5 :: s[k] == rest[k - n];
      }
    }
  }

  lemma {:induction false} MixedTextSpelled(style: Style, input: string)
    requires AllAscii(input) && |input| % 4 == 0 && |input| <= 20 && style.Mixed()
    ensures MixedSpelled(NumberText(style, input))
  {
    hide GroupText, BiggerRankText, MixedSpelled;
    if input == "" {
      assert MixedSpelled("") by { NothingSpelled(); }
    } else {
      var group, big := GroupText(style, input[..4], 0, true), BiggerRankText(style, |input| / 4 - 1);
      var rest := NumberText(style, input[4..]);
      MixedTextSpelled(style, input[4..]);
      MixedGroupShape(style, input[..4], 0, true);
      BigRankShape(style, |input| / 4 - 1);
      if group == "" {
        assert "" + rest == rest;
      } else {
        assert |input| == 4 ==> rest == "";
        MixedSpelledConcat(group, big, rest);
      }
    }
  }

  lemma NothingSpelled()
    ensures MixedSpelled("")
  {}

  // ---------------------------------------------------------------------------
  // The old characters against the modern ones
  // ---------------------------------------------------------------------------

  /** The modern character for an old one. */
  function ModernChar(c: char): char {
    match c
    case '壱' => '一' case '弐' => '二' case '参' => '三' case '拾' => '十' case '阡' => '千' case '萬' => '万'
    case _ => c
  }

  /** Modern characters, without a one before a rank. */
  function Modern(s: string): string {
    if s == "" then ""
    else (if |s| >= 2 && ModernChar(s[0]) == '一' && RankKanji(ModernChar(s[1])) then "" else [ModernChar(s[0])]) + Modern(s[1..])
  }

  ghost predicate NoRankLeads(s: string) {
    s != "" ==> !RankKanji(ModernChar(s[0]))
  }

  lemma ModernCons(c: char, tail: string)
    ensures Modern([c] + tail) ==
            (if tail != "" && ModernChar(c) == '一' && RankKanji(ModernChar(tail[0])) then "" else [ModernChar(c)]) + Modern(tail)
  {
    assert ([c] + tail)[1..] == tail;
  }

  lemma OldPieceModern(c: char, i: nat)
    requires IsAsciiDigit(c) && i < 4 && c != '0'
    ensures var s := Piece(OldKanji, c, i);
            && |s| == (if i == 3 then 1 else 2)
            && !RankKanji(ModernChar(s[0])) && (ModernChar(s[0]) == '一' <==> c == '1')
            && (i < 3 ==> RankKanji(ModernChar(s[1])) && ModernChar(s[1]) != '一')
            && Piece(KanjiStyle, c, i) ==
               (if i < 3 && c == '1' then "" else [ModernChar(s[0])]) + (if i < 3 then [ModernChar(s[1])] else "")
  {
    hide Alphabet;
    OldDigitModern(DigitValue(c));
    OldRankModern(4 - i);
  }

  lemma OldDigitModern(d: nat)
    requires 1 <= d < 10
    ensures |OLD_NUMERALS[d]| == 1 && KANJI_NUMERALS[d] == [ModernChar(OLD_NUMERALS[d][0])]
    ensures !RankKanji(ModernChar(OLD_NUMERALS[d][0])) && (ModernChar(OLD_NUMERALS[d][0]) == '一' <==> d == 1)
  {}

  lemma OldRankModern(k: nat)
    requires 1 <= k < 5
    ensures if k == 1 then OLD_RANKS[k] == RANKS[k] == ""
            else |OLD_RANKS[k]| == 1 && RANKS[k] == [ModernChar(OLD_RANKS[k][0])] && RankKanji(RANKS[k][0]) && RANKS[k][0] != '一'
  {}

  lemma ModernPiece(c: char, i: nat, tail: string)
    requires IsAsciiDigit(c) && i < 4 && NoRankLeads(tail)
    ensures NoRankLeads(Piece(OldKanji, c, i) + tail)
    ensures Modern(Piece(OldKanji, c, i) + tail) == Piece(KanjiStyle, c, i) + Modern(tail)
  {
    hide Piece, Modern, RankKanji, ModernChar;
    var s := Piece(OldKanji, c, i);
    if c == '0' {
      ZeroPieces(i);
      assert "" + tail == tail && "" + Modern(tail) == Modern(tail);
    } else {
      OldPieceModern(c, i);
      if i == 3 {
        assert s == [s[0]];
        ModernCons(s[0], tail);
      } else {
        assert s + tail == [s[0]] + ([s[1]] + tail);
        ModernCons(s[1], tail);
        ModernCons(s[0], [s[1]] + tail);
        assert Modern([s[1]] + tail) == [ModernChar(s[1])] + Modern(tail);
        assert ([s[1]] + tail)[0] == s[1];
      }
    }
  }

  lemma ZeroPieces(i: nat)
    requires i < 4
    ensures Piece(OldKanji, '0', i) == "" && Piece(KanjiStyle, '0', i) == ""
  {}

  lemma {:induction false} ModernGroup(group: string, i: nat, leading: bool, rest: string)
    requires |group| == 4 && AllAscii(group) && i <= 4 && NoRankLeads(rest)
    ensures var text := GroupText(OldKanji, group, i, leading) + rest;
            NoRankLeads(text) && Modern(text) == GroupText(KanjiStyle, group, i, leading) + Modern(rest)
    decreases 4 - i
  {
    hide Piece, Modern, NoRankLeads;
    if i == 4 {
      assert "" + rest == rest && "" + Modern(rest) == Modern(rest);
    } else {
      ModernGroup(group, i + 1, leading && group[i] == '0', rest);
      if !(leading && group[i] == '0') {
        var piece, after := Piece(OldKanji, group[i], i), GroupText(OldKanji, group, i + 1, false);
        ModernPiece(group[i], i, after + rest);
        assert (piece + after) + rest == piece + (after + rest);
        var newPiece, newAfter := Piece(KanjiStyle, group[i], i), GroupText(KanjiStyle, group, i + 1, false);
        assert (newPiece + newAfter) + Modern(rest) == newPiece + (newAfter + Modern(rest));
      }
    }
  }

  lemma ModernBigRank(rank: nat, rest: string)
    requires rank < 5 && NoRankLeads(rest)
    ensures NoRankLeads(BiggerRankText(OldKanji, rank) + rest)
    ensures Modern(BiggerRankText(OldKanji, rank) + rest) == BiggerRankText(KanjiStyle, rank) + Modern(rest)
  {
    hide Modern, ModernChar, RankKanji;
    if rank == 0 {
      assert "" + rest == rest && "" + Modern(rest) == Modern(rest);
    } else {
      OldBigRankModern(rank);
      var s := BiggerRankText(OldKanji, rank);
      assert s == [s[0]];
      ModernCons(s[0], rest);
    }
  }

  lemma OldBigRankModern(rank: nat)
    requires 1 <= rank < 5
    ensures |BIGGER_OLD_RANKS[rank]| == 1 && BIGGER_RANKS[rank] == [ModernChar(BIGGER_OLD_RANKS[rank][0])]
    ensures BIGGER_RANKS[rank] != "一" && !RankKanji(BIGGER_RANKS[rank][0])
  {}

  /** The old-kanji text is the kanji text in old characters, with every one before a rank written out. */
  lemma {:induction false} OldIsKanjiInOldCharacters(input: string)
    requires AllAscii(input) && |input| % 4 == 0 && |input| <= 20
    ensures NoRankLeads(NumberText(OldKanji, input))
    ensures Modern(NumberText(OldKanji, input)) == NumberText(KanjiStyle, input)
  {
    hide GroupText, BiggerRankText, Modern, NoRankLeads;
    if input == "" {
      assert Modern("") == "" && NoRankLeads("") by { NothingModern(); }
    } else {
      var rank, rest := |input| / 4 - 1, NumberText(OldKanji, input[4..]);
      var group, big := GroupText(OldKanji, input[..4], 0, true), BiggerRankText(OldKanji, rank);
      OldIsKanjiInOldCharacters(input[4..]);
      SameEmptyGroups(input[..4]);
      if group == "" {
        assert "" + rest == rest && "" + Modern(rest) == Modern(rest);
      } else {
        ModernBigRank(rank, rest);
        ModernGroup(input[..4], 0, true, big + rest);
        assert group + big + rest == group + (big + rest);
        var newGroup, newBig := GroupText(KanjiStyle, input[..4], 0, true), BiggerRankText(KanjiStyle, rank);
        assert newGroup + newBig + Modern(rest) == newGroup + (newBig + Modern(rest));
      }
    }
  }

  lemma NothingModern()
    ensures Modern("") == "" && NoRankLeads("")
  {}

  lemma SameEmptyGroups(group: string)
    requires |group| == 4 && AllAscii(group)
    ensures GroupText(OldKanji, group, 0, true) == "" <==> GroupText(KanjiStyle, group, 0, true) == ""
  {
    hide GroupText, TokensOf, GroupValue, KanjiGroup, OldGroup;
    GroupHasTokens(OldKanji, group);
    GroupHasTokens(KanjiStyle, group);
    EmptyGroup(Old, DigitsOf(group));
    EmptyGroup(Kanji, DigitsOf(group));
    LengthOfTokens(FullTable, GroupText(OldKanji, group, 0, true));
    LengthOfTokens(FullTable, GroupText(KanjiStyle, group, 0, true));
  }

  /** Every old rank stands behind a numeral. */
  ghost predicate OldSpelled(s: string) {
    forall i | 0 <= i < |s| && OldRankKanji(s[i]) :: i > 0 && OldNumeral(s[i - 1])
  }

  lemma OldSpelledConcat(a: string, b: string)
    requires OldSpelled(a) && OldSpelled(b)
    ensures OldSpelled(a + b)
  {
    hide OldRankKanji, OldNumeral;
    forall i | 0 <= i < |a + b| && OldRankKanji((a + b)[i])
      ensures i > 0 && OldNumeral((a + b)[i - 1])
    {
      if i >= |a| {
        assert (a + b)[i] == b[i - |a|] && (a + b)[i - 1] == b[i - |a| - 1];
      }
    }
  }

  lemma OldPieceSpelled(c: char, i: nat)
    requires IsAsciiDigit(c) && i < 4
    ensures OldSpelled(Piece(OldKanji, c, i))
  {
    hide Alphabet;
    if c != '0' {
      OldDigitSpelled(DigitValue(c));
      OldRankModern(4 - i);
    }
  }

  lemma OldDigitSpelled(d: nat)
    requires 1 <= d < 10
    ensures |OLD_NUMERALS[d]| == 1 && OldNumeral(OLD_NUMERALS[d][0]) && !OldRankKanji(OLD_NUMERALS[d][0])
  {}

  lemma {:induction false} OldGroupSpelled(group: string, i: nat, leading: bool)
    requires |group| == 4 && AllAscii(group) && i <= 4
    ensures OldSpelled(GroupText(OldKanji, group, i, leading))
    decreases 4 - i
  {
    hide Piece, OldSpelled;
    if i == 4 {
      assert OldSpelled("") by { NothingOldSpelled(); }
    } else {
      OldGroupSpelled(group, i + 1, leading && group[i] == '0');
      OldPieceSpelled(group[i], i);
      if !(leading && group[i] == '0') {
        OldSpelledConcat(Piece(OldKanji, group[i], i), GroupText(OldKanji, group, i + 1, false));
      }
    }
  }

  lemma NothingOldSpelled()
    ensures OldSpelled("")
  {}

  lemma OldBigRankSpelled(rank: nat)
    requires rank < 5
    ensures OldSpelled(BiggerRankText(OldKanji, rank))
  {}

  lemma {:induction false} OldTextSpelled(input: string)
    requires AllAscii(input) && |input| % 4 == 0 && |input| <= 20
    ensures OldSpelled(NumberText(OldKanji, input))
  {
    hide GroupText, BiggerRankText, OldSpelled;
    if input == "" {
      assert OldSpelled("") by { NothingOldSpelled(); }
    } else {
      var group, big := GroupText(OldKanji, input[..4], 0, true), BiggerRankText(OldKanji, |input| / 4 - 1);
      var rest := NumberText(OldKanji, input[4..]);
      OldTextSpelled(input[4..]);
      OldGroupSpelled(input[..4], 0, true);
      OldBigRankSpelled(|input| / 4 - 1);
      NothingOldSpelled();
      OldSpelledConcat(group, big);
      OldSpelledConcat(group + big, rest);
      assert "" + rest == rest;
    }
  }

  // ---------------------------------------------------------------------------
  // Two tens as one character
  // ---------------------------------------------------------------------------

  /** Every 廿 written out as two tens. */
  function TwentyWrittenOut(s: string): string {
    if s == "" then "" else (if s[0] == '廿' then "弐拾" else s[..1]) + TwentyWrittenOut(s[1..])
  }

  /** ReplaceAll leaves no two tens behind, and writing them out again gives the text back. */
  lemma {:induction false} TwentyUndone(s: string)
    requires forall i | 0 <= i < |s| :: s[i] != '廿'
    ensures TwentyWrittenOut(ReplaceTwoTen(s)) == s && !HasTwoTen(ReplaceTwoTen(s))
    ensures s != "" ==> ReplaceTwoTen(s) != "" && (ReplaceTwoTen(s)[0] == s[0] || ReplaceTwoTen(s)[0] == '廿')
    decreases |s|
  {
    if s == "" {
    } else if |s| >= 2 && s[0] == '弐' && s[1] == '拾' {
      TwentyUndone(s[2..]);
      var r := ReplaceTwoTen(s[2..]);
      assert ("廿" + r)[1..] == r && s == "弐拾" + s[2..];
      NoTwoTenCons('廿', r);
    } else {
      TwentyUndone(s[1..]);
      var r := ReplaceTwoTen(s[1..]);
      assert (s[..1] + r)[1..] == r && (s[..1] + r)[..1] == s[..1] && s == s[..1] + s[1..];
      NoTwoTenCons(s[0], r);
    }
  }

  lemma NoTwoTenCons(c: char, r: string)
    requires !HasTwoTen(r) && !(c == '弐' && r != "" && r[0] == '拾')
    ensures !HasTwoTen([c] + r)
  {
    var s := [c] + r;
    forall i | 0 <= i < |s| - 1
      ensures !(s[i] == '弐' && s[i + 1] == '拾')
    {
      assert i > 0 ==> s[i] == r[i - 1] && s[i + 1] == r[i];
    }
  }
}
