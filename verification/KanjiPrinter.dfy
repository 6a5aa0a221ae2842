/**
 ArabicToKanji of src/base/number_util.cc on text.
 */
module KanjiPrinter {
  import opened CheckedArithmetic
  import opened KanjiText
  import opened NumberPrinter
  import opened NumberReader
  import opened Options

  datatype Style = HalfWidth | FullWidth | KanjiStyle | OldKanji {
    predicate Mixed() {
      HalfWidth? || FullWidth?
    }

    function Notation(): Notation {
      if Mixed() then NumberPrinter.Mixed else if KanjiStyle? then Kanji else Old
    }
  }

  const HALF_WIDTH_DIGITS: seq<string> := ["0", "1", "2", "3", "4", "5", "6", "7", "8", "9"]
  const FULL_WIDTH_DIGITS: seq<string> := ["０", "１", "２", "３", "４", "５", "６", "７", "８", "９"]
  const KANJI_NUMERALS: seq<string> := ["〇", "一", "二", "三", "四", "五", "六", "七", "八", "九"]
  const OLD_NUMERALS: seq<string> := ["", "壱", "弐", "参", "四", "五", "六", "七", "八", "九"]
  const RANKS: seq<string> := ["", "", "十", "百", "千"]
  const BIGGER_RANKS: seq<string> := ["", "万", "億", "兆", "京"]
  const OLD_RANKS: seq<string> := ["", "", "拾", "百", "阡"]
  const BIGGER_OLD_RANKS: seq<string> := ["", "萬", "億", "兆", "京"]

  function DigitText(style: Style, d: nat): string
    requires d < 10
  {
    match style
    case HalfWidth => HALF_WIDTH_DIGITS[d]
    case FullWidth => FULL_WIDTH_DIGITS[d]
    case KanjiStyle => KANJI_NUMERALS[d]
    case OldKanji => OLD_NUMERALS[d]
  }

  function RankText(style: Style, k: nat): string
    requires k < 5
  {
    if style.OldKanji? then OLD_RANKS[k] else RANKS[k]
  }

  function BiggerRankText(style: Style, rank: nat): string
    requires rank < 5
  {
    if style.OldKanji? then BIGGER_OLD_RANKS[rank] else BIGGER_RANKS[rank]
  }

  /** What the inner loop appends at position `i` of a group once it has seen a nonzero digit. */
  function Piece(style: Style, c: char, i: nat): string
    requires IsAsciiDigit(c) && i < 4
  {
    if style.Mixed() then DigitText(style, DigitValue(c))
    else if c == '0' then ""
    else (if style.OldKanji? || i == 3 || c != '1' then DigitText(style, DigitValue(c)) else "") + RankText(style, 4 - i)
  }

  /** The inner loop of ArabicToKanji from position `i` on. */
  function GroupText(style: Style, group: string, i: nat, leading: bool): string
    requires |group| == 4 && AllAscii(group) && i <= 4
    decreases 4 - i
  {
    if i == 4 then ""
    else if leading && group[i] == '0' then GroupText(style, group, i + 1, true)
    else Piece(style, group[i], i) + GroupText(style, group, i + 1, false)
  }

  /** The middle loop: the groups from the most significant one on, each with its big rank. */
  function NumberText(style: Style, input: string): string
    requires AllAscii(input) && |input| % 4 == 0 && |input| <= 20
  {
    if input == "" then ""
    else
      var group := GroupText(style, input[..4], 0, true);
      (if group == "" then "" else group + BiggerRankText(style, |input| / 4 - 1)) + NumberText(style, input[4..])
  }

  /** `input` with zeros in front up to a multiple of four digits. */
  function Filled(input: string): (s: string)
    requires AllAscii(input)
    ensures |s| % 4 == 0 && AllAscii(s) && |input| <= |s| < |input| + 4
  {
    seq((4 - |input| % 4) % 4, _ => '0') + input
  }

  /** StrReplaceAll with the one rule that turns two tens into twenty. */
  function ReplaceTwoTen(s: string): string {
    if s == "" then ""
    else if |s| >= 2 && s[0] == '弐' && s[1] == '拾' then "廿" + ReplaceTwoTen(s[2..])
    else s[..1] + ReplaceTwoTen(s[1..])
  }

  predicate HasTwoTen(s: string) {
    exists i | 0 <= i < |s| - 1 :: s[i] == '弐' && s[i + 1] == '拾'
  }

  datatype NumberString = NumberString(value: string, description: string, style: Style)

  function Description(style: Style): string {
    match style
    case HalfWidth => "数字"
    case FullWidth => "数字"
    case KanjiStyle => "漢数字"
    case OldKanji => "大字"
  }

  /** The entries one row of kKanjiVariations adds. */
  function Entries(style: Style, input: string): seq<NumberString>
    requires AllAscii(input) && |input| % 4 == 0 && |input| <= 20
  {
    if |input| == 4 && style.Mixed() then []
    else
      var text := NumberText(style, input);
      [NumberString(text, Description(style), style)]
      + (if !style.OldKanji? then []
         else
           (if HasTwoTen(text) then [NumberString(ReplaceTwoTen(text), "大字", OldKanji)] else [])
           + (if input == "0010" then [NumberString("拾", "大字", OldKanji)] else [])
           + (if input == "1000" then [NumberString("阡", "大字", OldKanji)] else []))
  }

  /** ArabicToKanji: whether it succeeds and what it appends to the output. */
  function Converted(input: string): (bool, seq<NumberString>) {
    if !IsDecimalInteger(input) then (false, [])
    else if forall i | 0 <= i < |input| :: input[i] == '0' then (true, [NumberString("零", "大字", OldKanji)])
    else if |input| > 20 then (false, [])
    else
      var filled := Filled(input);
      (true, Entries(HalfWidth, filled) + Entries(FullWidth, filled) + Entries(KanjiStyle, filled) + Entries(OldKanji, filled))
  }

  // ---------------------------------------------------------------------------
  // The printed text, as tokens
  // ---------------------------------------------------------------------------

  /** The data file, completed with the two old characters ArabicToKanji prints but it does not list. */
  function FullTable(c: char): Option<U64> {
    if c == '阡' then Some(1000) else if c == '萬' then Some(10000) else TokenOf(c)
  }

  lemma CharToken(table: Table, c: char)
    ensures TokensOf(table, [c]) == match table(c) case Some(t) => Some([t]) case None => None
  {
    assert [c][1..] == "" && [c][0] == c;
    if table(c).Some? {
      assert [table(c).value] + [] == [table(c).value];
    }
  }

  lemma DigitTokens(style: Style, d: nat)
    requires 1 <= d < 10 || (d == 0 && style.Mixed())
    ensures |DigitText(style, d)| == 1 && FullTable(DigitText(style, d)[0]) == Some(d)
  {
    match style
    case HalfWidth => HalfWidthTokens(d);
    case FullWidth => FullWidthTokens(d);
    case KanjiStyle => NumeralTokens(d);
    case OldKanji => OldNumeralTokens(d);
  }

  lemma HalfWidthTokens(d: nat)
    requires d < 10
    ensures |HALF_WIDTH_DIGITS[d]| == 1 && FullTable(HALF_WIDTH_DIGITS[d][0]) == Some(d)
  {}

  lemma FullWidthTokens(d: nat)
    requires d < 10
    ensures |FULL_WIDTH_DIGITS[d]| == 1 && FullTable(FULL_WIDTH_DIGITS[d][0]) == Some(d)
  {}

  lemma NumeralTokens(d: nat)
    requires 1 <= d < 10
    ensures |KANJI_NUMERALS[d]| == 1 && FullTable(KANJI_NUMERALS[d][0]) == Some(d)
  {}

  lemma OldNumeralTokens(d: nat)
    requires 1 <= d < 10
    ensures |OLD_NUMERALS[d]| == 1 && FullTable(OLD_NUMERALS[d][0]) == Some(d)
  {}

  /** The weight of position `i` in a group. */
  function BaseAt(i: nat): (base: U64)
    requires i < 3
    ensures IsBase(base)
  {
    if i == 0 then 1000 else if i == 1 then 100 else 10
  }

  lemma RankTokens(style: Style, i: nat)
    requires i < 3 && !style.Mixed()
    ensures |RankText(style, 4 - i)| == 1 && FullTable(RankText(style, 4 - i)[0]) == Some(BaseAt(i))
  {}

  lemma BiggerRankTokens(style: Style, rank: nat)
    requires rank < 5
    ensures TokensOf(FullTable, BiggerRankText(style, rank)) == Some(BigRank(rank))
  {
    hide TokensOf;
    PowersOf10000();
    if rank == 0 {
      assert TokensOf(FullTable, "") == Some([]) by { NoTokens(FullTable); }
    } else {
      BiggerRankChar(style, rank);
      CharToken(FullTable, BiggerRankText(style, rank)[0]);
      assert BiggerRankText(style, rank) == [BiggerRankText(style, rank)[0]];
    }
  }

  lemma NoTokens(table: Table)
    ensures TokensOf(table, "") == Some([])
  {}

  lemma PowersOf10000()
    ensures Pow10000(1) == 1_0000 && Pow10000(2) == 1_0000_0000 && Pow10000(3) == 1_0000_0000_0000
    ensures Pow10000(4) == 1_0000_0000_0000_0000
  {
    assert Pow10000(1) == 10000 && Pow10000(2) == 10000 * Pow10000(1) && Pow10000(3) == 10000 * Pow10000(2);
  }

  lemma BiggerRankChar(style: Style, rank: nat)
    requires 1 <= rank < 5
    ensures |BiggerRankText(style, rank)| == 1 && FullTable(BiggerRankText(style, rank)[0]) == Some(Pow10000(rank))
  {
    PowersOf10000();
  }

  /** The tokens of one piece. */
  function PieceTokens(style: Style, d: U64, i: nat): Tokens
    requires d < 10 && i < 4
  {
    if style.Mixed() then [d]
    else if i == 3 then OnesPart(d)
    else if style.OldKanji? then OldPart(d, BaseAt(i))
    else KanjiPart(d, BaseAt(i))
  }

  lemma PieceHasTokens(style: Style, c: char, i: nat)
    requires IsAsciiDigit(c) && i < 4
    ensures TokensOf(FullTable, Piece(style, c, i)) == Some(PieceTokens(style, DigitValue(c), i))
  {
    hide TokensOf, DigitText, RankText, FullTable;
    var d := DigitValue(c);
    NoTokens(FullTable);
    if d != 0 || style.Mixed() {
      DigitTokens(style, d);
      var t := DigitText(style, d);
      CharToken(FullTable, t[0]);
      assert t == [t[0]];
      if i == 3 && !style.Mixed() {
        assert RankText(style, 1) == "" by { FirstRankEmpty(style); }
        assert t + "" == t;
      } else if !style.Mixed() {
        RankTokens(style, i);
        var r := RankText(style, 4 - i);
        CharToken(FullTable, r[0]);
        assert r == [r[0]];
        TokensOfConcat(FullTable, t, r);
        assert [d] + [BaseAt(i)] == [d, BaseAt(i)];
        assert "" + r == r;
      }
    }
  }

  lemma FirstRankEmpty(style: Style)
    ensures RankText(style, 1) == ""
  {}

  /** The pieces of a group from position `i` on. */
  function PiecesFrom(style: Style, g: Digits, i: nat): Tokens
    requires |g| == 4 && i <= 4
    decreases 4 - i
  {
    if i == 4 then [] else PieceTokens(style, g[i], i) + PiecesFrom(style, g, i + 1)
  }

  lemma {:induction false} GroupHasPieces(style: Style, group: string, i: nat, leading: bool)
    requires |group| == 4 && AllAscii(group) && i <= 4 && !style.Mixed()
    ensures TokensOf(FullTable, GroupText(style, group, i, leading)) == Some(PiecesFrom(style, DigitsOf(group), i))
    decreases 4 - i
  {
    hide TokensOf, Piece, FullTable;
    if i == 4 {
      NoTokens(FullTable);
    } else if leading && group[i] == '0' {
      GroupHasPieces(style, group, i + 1, true);
      assert [] + PiecesFrom(style, DigitsOf(group), i + 1) == PiecesFrom(style, DigitsOf(group), i + 1);
    } else {
      PieceHasTokens(style, group[i], i);
      GroupHasPieces(style, group, i + 1, false);
      TokensOfConcat(FullTable, Piece(style, group[i], i), GroupText(style, group, i + 1, false));
    }
  }

  lemma {:induction false} MixedGroupHasDigits(style: Style, group: string, i: nat, leading: bool)
    requires |group| == 4 && AllAscii(group) && i <= 4 && style.Mixed()
    ensures TokensOf(FullTable, GroupText(style, group, i, leading)) ==
            Some(if leading then SkipZeros(DigitsOf(group)[i..]) else DigitsOf(group)[i..])
    decreases 4 - i
  {
    hide TokensOf, Piece, FullTable, SkipZeros;
    var ds := DigitsOf(group);
    if i == 4 {
      NoTokens(FullTable);
      assert ds[4..] == [];
    } else {
      assert ds[i..] == [ds[i]] + ds[i + 1..];
      FirstZero(ds[i], ds[i + 1..]);
      MixedGroupHasDigits(style, group, i + 1, leading && group[i] == '0');
      if !(leading && group[i] == '0') {
        PieceHasTokens(style, group[i], i);
        TokensOfConcat(FullTable, Piece(style, group[i], i), GroupText(style, group, i + 1, false));
      }
    }
  }

  lemma FirstZero(d: U64, rest: Tokens)
    ensures SkipZeros([d] + rest) == if d == 0 then SkipZeros(rest) else [d] + rest
  {
    assert ([d] + rest)[1..] == rest;
  }

  lemma PiecesAreGroup(style: Style, g: Digits)
    requires |g| == 4 && !style.Mixed()
    ensures PiecesFrom(style, g, 0) == style.Notation().Group(g)
  {
    hide KanjiPart, OldPart, OnesPart;
    assert PiecesFrom(style, g, 4) == [];
    assert PiecesFrom(style, g, 3) == OnesPart(g[3]) + [] == OnesPart(g[3]);
    assert PiecesFrom(style, g, 2) == PieceTokens(style, g[2], 2) + OnesPart(g[3]);
    assert PiecesFrom(style, g, 1) == PieceTokens(style, g[1], 1) + PiecesFrom(style, g, 2);
  }

  lemma GroupHasTokens(style: Style, group: string)
    requires |group| == 4 && AllAscii(group)
    ensures TokensOf(FullTable, GroupText(style, group, 0, true)) == Some(style.Notation().Group(DigitsOf(group)))
  {
    hide GroupText, TokensOf, PiecesFrom, SkipZeros, KanjiGroup, OldGroup, FullTable;
    var ds := DigitsOf(group);
    if style.Mixed() {
      MixedGroupHasDigits(style, group, 0, true);
      assert ds[0..] == ds;
    } else {
      GroupHasPieces(style, group, 0, true);
      PiecesAreGroup(style, ds);
    }
  }

  /** The first group with its big rank, in front of text whose tokens are known. */
  lemma FirstGroupHasTokens(style: Style, group: string, rank: nat, rest: string, restTokens: Tokens)
    requires |group| == 4 && AllAscii(group) && rank < 5 && TokensOf(FullTable, rest) == Some(restTokens)
    ensures var text := GroupText(style, group, 0, true); var g := DigitsOf(group);
            TokensOf(FullTable, (if text == "" then "" else text + BiggerRankText(style, rank)) + rest) ==
            Some(if GroupValue(g) == 0 then restTokens else style.Notation().Group(g) + (BigRank(rank) + restTokens))
  {
    hide TokensOf, GroupText, GroupValue, BiggerRankText, BigRank;
    var text, g := GroupText(style, group, 0, true), DigitsOf(group);
    GroupHasTokens(style, group);
    EmptyGroup(style.Notation(), g);
    LengthOfTokens(FullTable, text);
    if text == "" {
      assert "" + rest == rest;
    } else {
      BiggerRankTokens(style, rank);
      ThreeTexts(text, style.Notation().Group(g), BiggerRankText(style, rank), BigRank(rank), rest, restTokens);
    }
  }

  /** The text printed for a number has exactly the tokens of its notation. */
  lemma {:induction false} NumberHasTokens(style: Style, input: string)
    requires AllAscii(input) && |input| % 4 == 0 && |input| <= 20
    ensures TokensOf(FullTable, NumberText(style, input)) == Some(Printed(style.Notation(), DigitsOf(input)))
  {
    hide TokensOf, GroupText, GroupValue, BiggerRankText, BigRank, DigitsOf, KanjiGroup, OldGroup, TwentyGroup, MixedGroup;
    if input == "" {
      NoTokens(FullTable);
    } else {
      DigitsOfSplit(input);
      NumberHasTokens(style, input[4..]);
      FirstGroupHasTokens(style, input[..4], |input| / 4 - 1, NumberText(style, input[4..]),
                          Printed(style.Notation(), DigitsOf(input[4..])));
    }
  }

  lemma DigitsOfSplit(input: string)
    requires AllAscii(input) && |input| >= 4
    ensures DigitsOf(input)[..4] == DigitsOf(input[..4]) && DigitsOf(input)[4..] == DigitsOf(input[4..])
  {}

  lemma ThreeTexts(a: string, s: Tokens, b: string, t: Tokens, c: string, u: Tokens)
    requires TokensOf(FullTable, a) == Some(s) && TokensOf(FullTable, b) == Some(t) && TokensOf(FullTable, c) == Some(u)
    ensures TokensOf(FullTable, a + b + c) == Some(s + (t + u))
  {
    hide TokensOf;
    TokensOfConcat(FullTable, a, b);
    TokensOfConcat(FullTable, a + b, c);
    assert (s + t) + u == s + (t + u);
  }

  lemma LengthOfTokens(table: Table, text: string)
    ensures TokensOf(table, text).Some? ==> |TokensOf(table, text).value| == |text|
  {}

  lemma EmptyGroup(n: Notation, g: Digits)
    requires |g| == 4
    ensures n.Group(g) == [] <==> GroupValue(g) == 0
  {
    if GroupValue(g) > 0 {
      NonEmptyGroup(n, g);
    }
  }
}
