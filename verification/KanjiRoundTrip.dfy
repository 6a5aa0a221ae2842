/**
 ArabicToKanji followed by NormalizeNumbers, on text.
 */
module KanjiRoundTrip {
  import opened CheckedArithmetic
  import opened KanjiPrinter
  import opened KanjiText
  import opened NumberPrinter
  import opened NumberReader
  import opened Options

  /** The number a decimal string denotes. */
  function NumberOf(input: string): nat
    requires AllAscii(input)
  {
    Positional(DigitsOf(input), 0)
  }

  // ---------------------------------------------------------------------------
  // Filling with zeros and splitting into groups keep the number
  // ---------------------------------------------------------------------------

  lemma {:induction false} PositionalIsValue(ds: Digits, acc: nat)
    requires |ds| % 4 == 0
    ensures Positional(ds, acc) == acc * Pow10000(|ds| / 4) + Value(ds)
    decreases |ds|
  {
    if ds == [] {
    } else {
      hide Value, Positional, GroupValue, Pow10000;
      var g, rest, k := GroupValue(ds[..4]), ds[4..], |ds| / 4 - 1;
      FourSteps(ds, acc);
      PositionalIsValue(rest, acc * 10000 + g);
      ValueOfCons(ds);
      Distribute(acc, g, Pow10000(k));
      NextPower(k);
    }
  }

  lemma Distribute(acc: nat, g: nat, p: nat)
    ensures (acc * 10000 + g) * p == acc * (10000 * p) + g * p
  {}

  lemma NextPower(k: nat)
    ensures Pow10000(k + 1) == 10000 * Pow10000(k)
  {}

  lemma ValueOfCons(ds: Digits)
    requires |ds| % 4 == 0 && ds != []
    ensures Value(ds) == GroupValue(ds[..4]) * Pow10000(|ds| / 4 - 1) + Value(ds[4..])
  {}

  lemma FourSteps(ds: Digits, acc: nat)
    requires |ds| >= 4
    ensures Positional(ds, acc) == Positional(ds[4..], acc * 10000 + GroupValue(ds[..4]))
  {
    var d1, d2, d3 := ds[1..], ds[2..], ds[3..];
    assert d1[1..] == d2 && d2[1..] == d3 && d3[1..] == ds[4..];
    var a1 := acc * 10 + ds[0];
    var a2 := a1 * 10 + ds[1];
    var a3 := a2 * 10 + ds[2];
    assert Positional(ds, acc) == Positional(d1, a1);
    assert Positional(d1, a1) == Positional(d2, a2);
    assert Positional(d2, a2) == Positional(d3, a3);
    assert Positional(d3, a3) == Positional(ds[4..], a3 * 10 + ds[3]);
  }

  lemma {:induction false} LeadingZeroKeepsNumber(n: nat, ds: Tokens)
    ensures Positional(seq(n, _ => 0) + ds, 0) == Positional(ds, 0)
  {
    var z: Tokens := seq(n, _ => 0);
    if n == 0 {
      assert z + ds == ds;
    } else {
      assert (z + ds)[1..] == seq(n - 1, _ => 0) + ds;
      LeadingZeroKeepsNumber(n - 1, ds);
    }
  }

  lemma FilledKeepsNumber(input: string)
    requires AllAscii(input)
    ensures Value(DigitsOf(Filled(input))) == NumberOf(input)
  {
    var n := (4 - |input| % 4) % 4;
    var ds: Digits := DigitsOf(Filled(input));
    assert ds == seq(n, _ => 0) + DigitsOf(input);
    LeadingZeroKeepsNumber(n, DigitsOf(input));
    PositionalIsValue(ds, 0);
  }

  // ---------------------------------------------------------------------------
  // The characters of printed text
  // ---------------------------------------------------------------------------

  ghost predicate AllChars(p: char -> bool, s: string) {
    forall i | 0 <= i < |s| :: p(s[i])
  }

  lemma {:induction false} GroupChars(style: Style, group: string, i: nat, leading: bool, p: char -> bool)
    requires |group| == 4 && AllAscii(group) && i <= 4
    requires forall c, j | IsAsciiDigit(c) && 0 <= j < 4 :: AllChars(p, Piece(style, c, j))
    ensures AllChars(p, GroupText(style, group, i, leading))
    decreases 4 - i
  {
    hide Piece;
    if i < 4 {
      GroupChars(style, group, i + 1, leading && group[i] == '0', p);
    }
  }

  lemma {:induction false} NumberChars(style: Style, input: string, p: char -> bool)
    requires AllAscii(input) && |input| % 4 == 0 && |input| <= 20
    requires forall c, j | IsAsciiDigit(c) && 0 <= j < 4 :: AllChars(p, Piece(style, c, j))
    requires forall rank | 0 <= rank < 5 :: AllChars(p, BiggerRankText(style, rank))
    ensures AllChars(p, NumberText(style, input))
  {
    hide Piece, GroupText, BiggerRankText;
    if input != "" {
      GroupChars(style, input[..4], 0, true, p);
      NumberChars(style, input[4..], p);
    }
  }

  /** The two characters the data file does not list. */
  predicate Listed(c: char) {
    c != '阡' && c != '萬'
  }

  lemma {:induction false} ListedTokens(s: string)
    ensures TokensOf(TokenOf, s) == if AllChars(Listed, s) then TokensOf(FullTable, s) else None
  {
    hide TokenOf;
    if s != "" {
      ListedTokens(s[1..]);
      UnlistedHasNoToken(s[0]);
      assert AllChars(Listed, s) <==> Listed(s[0]) && AllChars(Listed, s[1..]) by {
        assert s == [s[0]] + s[1..];
      }
    }
  }

  lemma UnlistedHasNoToken(c: char)
    ensures TokenOf(c) == if Listed(c) then FullTable(c) else None
  {}

  // ---------------------------------------------------------------------------
  // Kanji and mixed styles
  // ---------------------------------------------------------------------------

  lemma ListedPiece(style: Style, c: char, i: nat)
    requires IsAsciiDigit(c) && i < 4
    ensures AllChars(Listed, Piece(style, c, i)) <==> !(style.OldKanji? && i == 0 && c != '0')
  {
    hide DigitText, RankText, FullTable;
    var d := DigitValue(c);
    if c == '0' && !style.Mixed() {
    } else {
      DigitTokens(style, d);
      ListedToken(DigitText(style, d)[0]);
      if !style.Mixed() {
        if i == 3 {
          FirstRankEmpty(style);
        } else {
          ListedRank(style, i);
        }
      }
      PieceChars(style, c, i);
      var s := Piece(style, c, i);
      if !style.Mixed() && i != 3 {
        assert s[|s| - 1] == RankText(style, 4 - i)[0];
      }
    }
  }

  lemma ListedToken(c: char)
    requires FullTable(c).Some? && FullTable(c).value < 10
    ensures Listed(c)
  {}

  lemma ListedRank(style: Style, i: nat)
    requires i < 3 && !style.Mixed()
    ensures |RankText(style, 4 - i)| == 1 && (Listed(RankText(style, 4 - i)[0]) <==> !(style.OldKanji? && i == 0))
  {}

  /** A piece is a digit, a rank, or both. */
  lemma PieceChars(style: Style, c: char, i: nat)
    requires IsAsciiDigit(c) && i < 4 && (style.Mixed() || c != '0')
    requires |DigitText(style, DigitValue(c))| == 1
    requires !style.Mixed() ==> |RankText(style, 4 - i)| == if i == 3 then 0 else 1
    ensures var s := Piece(style, c, i);
            && s != ""
            && (style.Mixed() || i == 3 ==> s == DigitText(style, DigitValue(c)))
            && (!style.Mixed() && i != 3 ==> s == RankText(style, 4 - i) || s == DigitText(style, DigitValue(c)) + RankText(style, 4 - i))
  {}

  lemma ListedBigRank(style: Style, rank: nat)
    requires rank < 5
    ensures AllChars(Listed, BiggerRankText(style, rank)) <==> !(style.OldKanji? && rank == 1)
  {
    if style.OldKanji? && rank == 1 {
      assert BiggerRankText(style, rank)[0] == '萬';
    }
  }

  /** The number is read from the text of the given style under the data file's own table. */
  lemma ReadText(style: Style, input: string)
    requires !style.OldKanji? && AllAscii(input) && |input| % 4 == 0 && |input| <= 20
    ensures TokensOf(TokenOf, NumberText(style, input)) == Some(Printed(style.Notation(), DigitsOf(input)))
  {
    hide Piece, BiggerRankText, NumberText, TokensOf, Printed;
    forall c, i: nat | IsAsciiDigit(c) && i < 4
      ensures AllChars(Listed, Piece(style, c, i))
    {
      ListedPiece(style, c, i);
    }
    forall rank: nat | rank < 5
      ensures AllChars(Listed, BiggerRankText(style, rank))
    {
      ListedBigRank(style, rank);
    }
    NumberChars(style, input, Listed);
    ListedTokens(NumberText(style, input));
    NumberHasTokens(style, input);
  }

  lemma {:induction false} AlwaysReadable(n: Notation, ds: Digits)
    requires |ds| % 4 == 0 && (n.Kanji? || n.Mixed?)
    ensures AllReadable(n, ds)
    decreases |ds|
  {
    if ds != [] {
      AlwaysReadable(n, ds[4..]);
    }
  }

  /** A printed text never starts with a zero token. */
  lemma {:induction false} NoLeadingZero(n: Notation, ds: Digits)
    requires |ds| % 4 == 0 && |ds| <= 20
    ensures LeadingZeros(Printed(n, ds)) == 0
    decreases |ds|
  {
    hide GroupValue, BigRank;
    if ds != [] {
      NoLeadingZero(n, ds[4..]);
      if GroupValue(ds[..4]) > 0 {
        GroupStartsNonZero(n, ds[..4]);
      }
    }
  }

  lemma GroupStartsNonZero(n: Notation, g: Digits)
    requires |g| == 4 && GroupValue(g) > 0
    ensures n.Group(g) != [] && n.Group(g)[0] != 0
  {
    hide SkipZeros;
    NonEmptyGroup(n, g);
  }

  /** Reading a text whose tokens, if it has any under the data file's table, are those of `ds`. */
  lemma ReadAny(text: string, n: Notation, ds: Digits, trim: bool)
    requires |ds| % 4 == 0 && |ds| <= 20 && Value(ds) > 0
    requires var ts := TokensOf(TokenOf, text); ts.Some? ==> ts.value == Printed(n, ds)
    ensures Normalize(text, trim) ==
            if TokensOf(TokenOf, text).Some? && Value(ds) <= MAX_U64 && AllReadable(n, ds)
            then Accepted(KanjiForm(text), Decimal(Value(ds))) else Rejected
  {
    hide Decimal, Printed, ReadNumber, KanjiForm, TokensOf, Value, AllReadable;
    ReadPrinted(n, ds);
    NoLeadingZero(n, ds);
    ReadNumberNonEmpty(Printed(n, ds));
    assert seq(0, _ => '0') + Decimal(Value(ds)) == Decimal(Value(ds));
    assert "" + Decimal(Value(ds)) == Decimal(Value(ds));
  }

  /**
   ArabicToKanji, then NormalizeNumbers: in kanji and in the two mixed styles a number that fits
   in 64 bits comes back exactly, whether zeros are trimmed or not, and a larger one is refused.
   */
  lemma TextRoundTrip(style: Style, input: string, trim: bool)
    requires !style.OldKanji? && IsDecimalInteger(input) && |input| <= 20 && NumberOf(input) > 0
    ensures var text := NumberText(style, Filled(input));
            Normalize(text, trim) ==
            if NumberOf(input) <= MAX_U64 then Accepted(KanjiForm(text), Decimal(NumberOf(input))) else Rejected
  {
    hide NumberText, Decimal, Printed, KanjiForm, TokensOf, Value, NumberOf, AllReadable;
    var filled := Filled(input);
    FilledKeepsNumber(input);
    ReadText(style, filled);
    AlwaysReadable(style.Notation(), DigitsOf(filled));
    ReadAny(NumberText(style, filled), style.Notation(), DigitsOf(filled), trim);
  }

  predicate NotArabic(c: char) {
    !IsAsciiDigit(c) && !IsWideDigit(c)
  }

  lemma NumeralNotArabic(d: nat)
    requires d < 10
    ensures AllChars(NotArabic, KANJI_NUMERALS[d])
  {}

  lemma RankNotArabic(k: nat)
    requires k < 5
    ensures AllChars(NotArabic, RANKS[k]) && AllChars(NotArabic, BIGGER_RANKS[k])
  {}

  /** In kanji style even the kanji form that NormalizeNumbers returns is the printed text. */
  lemma KanjiRoundTrip(input: string, trim: bool)
    requires IsDecimalInteger(input) && |input| <= 20 && 0 < NumberOf(input) <= MAX_U64
    ensures var text := NumberText(KanjiStyle, Filled(input));
            Normalize(text, trim) == Accepted(text, Decimal(NumberOf(input)))
  {
    hide NumberText, Decimal, NumberOf, Normalize;
    TextRoundTrip(KanjiStyle, input, trim);
    forall c, i: nat | IsAsciiDigit(c) && i < 4
      ensures AllChars(NotArabic, Piece(KanjiStyle, c, i))
    {
      NumeralNotArabic(DigitValue(c));
      RankNotArabic(4 - i);
    }
    forall rank: nat | rank < 5
      ensures AllChars(NotArabic, BiggerRankText(KanjiStyle, rank))
    {
      RankNotArabic(rank);
    }
    NumberChars(KanjiStyle, Filled(input), NotArabic);
    var text := NumberText(KanjiStyle, Filled(input));
    assert forall i | 0 <= i < |text| :: KanjiForm(text)[i] == text[i];
    assert KanjiForm(text) == text;
  }
}
