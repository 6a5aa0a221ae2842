/**
 NormalizeNumbers on any text: which characters it knows, which texts it accepts, and what the
 kanji form and the number it returns say.
 */
module KanjiReading {
  import opened CheckedArithmetic
  import opened KanjiText
  import opened NumberGrammar
  import opened NumberMeaning
  import opened NumberReader
  import opened Options

  /** The lines of the data file whose value is below ten. */
  predicate FileDigit(c: char, d: U64) {
    d < 10 && (c == "零一二三四五六七八九"[d] || c == "0123456789"[d] || c == "０１２３４５６７８９"[d]
               || (1 <= d <= 3 && c == "*壱弐参"[d]))
  }

  /** The other lines of the data file. */
  predicate FileRank(c: char, v: U64) {
    || (v == 10 && c in "十拾") || (v == 20 && c == '廿') || (v == 30 && c == '卅') || (v == 40 && c == '卌')
    || (v == 100 && c == '百') || (v == 1000 && c == '千') || (v == 1_0000 && c == '万') || (v == 1_0000_0000 && c == '億')
    || (v == 1_0000_0000_0000 && c == '兆') || (v == 1_0000_0000_0000_0000 && c == '京')
  }

  /** A character is worth what the file's line for it says, and nothing without a line. */
  lemma TokenIffListed(c: char, v: U64)
    ensures TokenOf(c) == Some(v) <==> FileDigit(c, v) || FileRank(c, v)
  {
    hide TokenOf, FileDigit, FileRank;
    TokenListed(c);
    ListedDigit(c, v);
    ListedRank(c, v);
  }

  lemma TokenListed(c: char)
    ensures TokenOf(c).Some? ==> FileDigit(c, TokenOf(c).value) || FileRank(c, TokenOf(c).value)
  {}

  lemma ListedDigit(c: char, d: U64)
    ensures FileDigit(c, d) ==> TokenOf(c) == Some(d)
  {
    hide TokenOf;
    if d < 10 {
      FigureListed(d);
      NumeralListed(d);
    }
  }

  lemma FigureListed(d: nat)
    requires d < 10
    ensures TokenOf("0123456789"[d]) == Some(d) && TokenOf("０１２３４５６７８９"[d]) == Some(d)
  {}

  lemma NumeralListed(d: nat)
    requires d < 10
    ensures TokenOf("零一二三四五六七八九"[d]) == Some(d) && (1 <= d <= 3 ==> TokenOf("*壱弐参"[d]) == Some(d))
  {}

  lemma ListedRank(c: char, v: U64)
    ensures FileRank(c, v) ==> TokenOf(c) == Some(v)
  {}

  /** `z` is where the first token that is not zero stands, or the last place when all are zero. */
  predicate ZerosEndAt(ts: Tokens, z: nat) {
    z < |ts| && (forall i | 0 <= i < z :: ts[i] == 0) && (ts[z] != 0 || z == |ts| - 1)
  }

  lemma {:induction false} LeadingZerosEnd(ts: Tokens)
    ensures forall i | 0 <= i < LeadingZeros(ts) :: ts[i] == 0
    ensures LeadingZeros(ts) < |ts| ==> ts[LeadingZeros(ts)] != 0
  {
    if ts != [] && ts[0] == 0 {
      LeadingZerosEnd(ts[1..]);
      assert forall i | 1 <= i < LeadingZeros(ts) :: ts[i] == ts[1..][i - 1];
    }
  }

  lemma KeptZerosEnd(ts: Tokens)
    requires ts != []
    ensures ZerosEndAt(ts, KeptZeros(ts))
  {
    hide SkipZeros;
    LeadingZerosEnd(ts);
  }

  /** The part of the tokens that is kept follows the grammar and fits in 64 bits. */
  predicate Acceptable(ts: Tokens) {
    Grammatical(Kept(ts)) && Meaning(Kept(ts), 0, 0, 0) < 0x1_0000_0000_0000_0000
  }

  /** `arabic` is that part's meaning in decimal, behind the leading zeros when they are kept. */
  ghost predicate PrintsMeaning(arabic: string, ts: Tokens, trim: bool) {
    var m := Decimal(Meaning(Kept(ts), 0, 0, 0));
    exists z: nat | ZerosEndAt(ts, z) :: arabic == if trim then m else seq(z, _ => '0') + m
  }

  /**
   NormalizeNumbers accepts a text if and only if every character is in the data file and the part that
   is kept follows the grammar and means less than 2^64. It returns that meaning in decimal, behind the
   leading zeros when they are not to be trimmed.
   */
  lemma NormalizeExactly(text: string, trim: bool)
    ensures var ts, n := TokensOf(TokenOf, text), Normalize(text, trim);
            && (n.Accepted? <==> ts.Some? && Acceptable(ts.value))
            && (n.Accepted? ==> n.kanji == KanjiForm(text) && PrintsMeaning(n.arabic, ts.value, trim))
  {
    hide TokensOf, Grammatical, Kept, Meaning, Decimal, KanjiForm, ReadNumber, KeptZeros, ZerosEndAt;
    if TokensOf(TokenOf, text).Some? {
      var ts := TokensOf(TokenOf, text).value;
      ReadExactly(ts);
      if ReadNumber(ts).0 {
        ReadNumberNonEmpty(ts);
        KeptZerosEnd(ts);
        assert "" + Decimal(ReadNumber(ts).1) == Decimal(ReadNumber(ts).1);
      }
    }
  }

  /** The data file with the circle that the kanji form writes for a zero digit. */
  function CircleTable(c: char): Option<U64> {
    if c == '〇' then Some(0) else TokenOf(c)
  }

  lemma FigureToKanji(c: char)
    ensures if '0' <= c <= '9' then KanjiChar(c) == "〇一二三四五六七八九"[c as int - '0' as int]
            else if '０' <= c <= '９' then KanjiChar(c) == "〇一二三四五六七八九"[c as int - '０' as int]
            else KanjiChar(c) == c
    ensures TokenOf(c).Some? ==> CircleTable(KanjiChar(c)) == TokenOf(c)
  {
    if IsAsciiDigit(c) || IsWideDigit(c) {
      var d := DigitValue(c);
      assert TokenOf(c) == Some(d);
      CircleDigit(d);
    }
  }

  lemma CircleDigit(d: nat)
    requires d < 10
    ensures CircleTable(KANJI_DIGITS[d]) == Some(d)
  {}

  /** The kanji form of a text has no figures left and reads as the same tokens. */
  lemma {:induction false} KanjiFormReads(text: string)
    requires TokensOf(TokenOf, text).Some?
    ensures TokensOf(CircleTable, KanjiForm(text)) == TokensOf(TokenOf, text)
    ensures forall c | c in KanjiForm(text) :: !IsAsciiDigit(c) && !IsWideDigit(c)
  {
    hide TokenOf, KanjiChar, CircleTable;
    if text != "" {
      KanjiFormReads(text[1..]);
      FigureToKanji(text[0]);
      NoFigure(text[0]);
      assert KanjiForm(text) == [KanjiChar(text[0])] + KanjiForm(text[1..]);
    }
  }

  lemma NoFigure(c: char)
    ensures !IsAsciiDigit(KanjiChar(c)) && !IsWideDigit(KanjiChar(c))
  {
    if IsAsciiDigit(c) || IsWideDigit(c) {
      KanjiDigitNoFigure(DigitValue(c));
    }
  }

  lemma KanjiDigitNoFigure(d: nat)
    requires d < 10
    ensures !IsAsciiDigit(KANJI_DIGITS[d]) && !IsWideDigit(KANJI_DIGITS[d])
  {}
}
