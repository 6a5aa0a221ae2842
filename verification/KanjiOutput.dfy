/**
 What ArabicToKanji promises its caller: which entries it appends, and what each of them says.
 */
module KanjiOutput {
  import opened CheckedArithmetic
  import opened KanjiOldStyle
  import opened KanjiPrinter
  import opened KanjiRoundTrip
  import opened KanjiSpelling
  import opened KanjiText
  import opened NumberPrinter
  import opened NumberReader
  import opened Options

  /** The entries of one style. */
  function Of(style: Style, output: seq<NumberString>): seq<NumberString> {
    if output == [] then [] else (if output[0].style == style then [output[0]] else []) + Of(style, output[1..])
  }

  /** NormalizeNumbers gives `n` back, with `kanji` as its kanji form, exactly when it fits in 64 bits. */
  ghost predicate GivesBack(text: string, kanji: string, n: nat) {
    forall trim :: Normalize(text, trim) == if n < 0x1_0000_0000_0000_0000 then Accepted(kanji, Decimal(n)) else Rejected
  }

  ghost predicate KanjiEntry(e: NumberString, n: nat) {
    && e.description == "漢数字" && Means(e.value, n) && GivesBack(e.value, e.value, n)
    && AllChars(Alphabet(KanjiStyle), e.value) && KanjiSpelled(e.value)
  }

  ghost predicate MixedEntry(e: NumberString, n: nat) {
    && e.description == "数字" && Means(e.value, n) && GivesBack(e.value, KanjiForm(e.value), n)
    && AllChars(Alphabet(e.style), e.value) && MixedSpelled(e.value)
  }

  /** The old-kanji entries beside the kanji text `kanji` of `n`; `short` when it has at most four digits. */
  ghost predicate OldEntries(es: seq<NumberString>, kanji: string, short: bool, n: nat) {
    && es != []
    && var text := es[0].value;
    && Modern(text) == kanji && Means(text, n)
    && AllChars(Alphabet(OldKanji), text) && OldSpelled(text)
    && es == [NumberString(text, "大字", OldKanji)]
              + (if HasTwoTen(text) then [NumberString(ReplaceTwoTen(text), "大字", OldKanji)] else [])
              + (if short && n == 10 then [NumberString("拾", "大字", OldKanji)] else [])
              + (if short && n == 1000 then [NumberString("阡", "大字", OldKanji)] else [])
  }

  /** The output for a decimal string that is not all zeros. */
  ghost predicate Promised(input: string, output: seq<NumberString>)
    requires AllAscii(input)
  {
    var n, short, kanji := NumberOf(input), |input| <= 4, Of(KanjiStyle, output);
    && output == Of(HalfWidth, output) + Of(FullWidth, output) + kanji + Of(OldKanji, output)
    && |kanji| == 1 && KanjiEntry(kanji[0], n)
    && (forall style: Style | style.Mixed() ::
          |Of(style, output)| == (if short then 0 else 1) && forall e | e in Of(style, output) :: MixedEntry(e, n))
    && OldEntries(Of(OldKanji, output), kanji[0].value, short, n)
  }

  lemma {:induction false} OfConcat(style: Style, a: seq<NumberString>, b: seq<NumberString>)
    ensures Of(style, a + b) == Of(style, a) + Of(style, b)
  {
    if a == [] {
      assert a + b == b;
    } else {
      assert (a + b)[1..] == a[1..] + b;
      OfConcat(style, a[1..], b);
    }
  }

  lemma {:induction false} OfOneStyle(style: Style, other: Style, es: seq<NumberString>)
    requires forall i | 0 <= i < |es| :: es[i].style == other
    ensures Of(style, es) == if style == other then es else []
  {
    if es != [] {
      OfOneStyle(style, other, es[1..]);
      assert es == [es[0]] + es[1..];
    }
  }

  lemma EntriesOfStyle(style: Style, input: string)
    requires AllAscii(input) && |input| % 4 == 0 && |input| <= 20
    ensures forall i | 0 <= i < |Entries(style, input)| :: Entries(style, input)[i].style == style
  {
    hide NumberText, ReplaceTwoTen, HasTwoTen;
  }

  lemma OfAll(style: Style, input: string)
    requires AllAscii(input) && |input| % 4 == 0 && |input| <= 20
    ensures Of(style, Entries(HalfWidth, input) + Entries(FullWidth, input) + Entries(KanjiStyle, input) + Entries(OldKanji, input))
         == Entries(style, input)
  {
    hide Entries, Of;
    var a, b, c, d := Entries(HalfWidth, input), Entries(FullWidth, input), Entries(KanjiStyle, input), Entries(OldKanji, input);
    EntriesOfStyle(HalfWidth, input);
    EntriesOfStyle(FullWidth, input);
    EntriesOfStyle(KanjiStyle, input);
    EntriesOfStyle(OldKanji, input);
    OfOneStyle(style, HalfWidth, a);
    OfOneStyle(style, FullWidth, b);
    OfOneStyle(style, KanjiStyle, c);
    OfOneStyle(style, OldKanji, d);
    OfConcat(style, a, b);
    OfConcat(style, a + b, c);
    OfConcat(style, a + b + c, d);
  }

  /** At most four digits fill to "0010" or "1000" exactly when they denote 10 or 1000. */
  lemma FilledIsTenIff(input: string)
    requires IsDecimalInteger(input)
    ensures Filled(input) == "0010" <==> |input| <= 4 && NumberOf(input) == 10
    ensures Filled(input) == "1000" <==> |input| <= 4 && NumberOf(input) == 1000
  {
    hide NumberOf;
    FilledKeepsNumber(input);
    var f := Filled(input);
    if |input| <= 4 {
      var ds: Digits := DigitsOf(f);
      ValueOfFour(ds);
      assert f == [f[0], f[1], f[2], f[3]];
    }
  }

  lemma ValueOfFour(ds: Digits)
    requires |ds| == 4
    ensures Value(ds) == 1000 * ds[0] + 100 * ds[1] + 10 * ds[2] + ds[3]
  {
    assert ds[..4] == ds && ds[4..] == [];
    assert Pow10000(0) == 1;
  }

  lemma KanjiEntryAsPromised(input: string)
    requires IsDecimalInteger(input) && |input| <= 20 && NumberOf(input) > 0
    ensures KanjiEntry(NumberString(NumberText(KanjiStyle, Filled(input)), "漢数字", KanjiStyle), NumberOf(input))
  {
    hide NumberText, Means, Alphabet, KanjiSpelled, Normalize, Decimal, NumberOf, AllChars, KanjiForm;
    TextMeans(KanjiStyle, input);
    TextInAlphabet(KanjiStyle, Filled(input));
    KanjiTextSpelled(Filled(input));
    forall trim
      ensures var text := NumberText(KanjiStyle, Filled(input));
              Normalize(text, trim) ==
              if NumberOf(input) < 0x1_0000_0000_0000_0000 then Accepted(text, Decimal(NumberOf(input))) else Rejected
    {
      if NumberOf(input) <= MAX_U64 {
        KanjiRoundTrip.KanjiRoundTrip(input, trim);
      }
      TextRoundTrip(KanjiStyle, input, trim);
    }
  }

  lemma MixedEntryAsPromised(style: Style, input: string)
    requires IsDecimalInteger(input) && |input| <= 20 && NumberOf(input) > 0 && style.Mixed()
    ensures MixedEntry(NumberString(NumberText(style, Filled(input)), "数字", style), NumberOf(input))
  {
    hide NumberText, Means, Alphabet, MixedSpelled, Normalize, Decimal, NumberOf, AllChars, KanjiForm;
    TextMeans(style, input);
    TextInAlphabet(style, Filled(input));
    MixedTextSpelled(style, Filled(input));
    forall trim {
      TextRoundTrip(style, input, trim);
    }
  }

  lemma OldEntriesAsPromised(input: string)
    requires IsDecimalInteger(input) && |input| <= 20 && NumberOf(input) > 0
    ensures OldEntries(Entries(OldKanji, Filled(input)), NumberText(KanjiStyle, Filled(input)), |input| <= 4, NumberOf(input))
  {
    hide NumberText, Means, Alphabet, OldSpelled, NumberOf, AllChars, HasTwoTen, ReplaceTwoTen, Modern;
    TextMeans(OldKanji, input);
    TextInAlphabet(OldKanji, Filled(input));
    OldTextSpelled(Filled(input));
    OldIsKanjiInOldCharacters(Filled(input));
    FilledIsTenIff(input);
  }

  /** ArabicToKanji appends what it promises. */
  lemma ConvertedAsPromised(input: string)
    requires IsDecimalInteger(input) && |input| <= 20 && NumberOf(input) > 0
    ensures Converted(input).0 && Promised(input, Converted(input).1)
  {
    hide Entries, KanjiEntry, MixedEntry, OldEntries, NumberOf, Of, NumberText;
    var f, output := Filled(input), Converted(input).1;
    assert !forall i | 0 <= i < |input| :: input[i] == '0' by { AllZerosIsZero(input); }
    forall style {
      OfAll(style, f);
    }
    KanjiEntryAsPromised(input);
    MixedEntryAsPromised(HalfWidth, input);
    MixedEntryAsPromised(FullWidth, input);
    OldEntriesAsPromised(input);
    forall style: Style | !style.OldKanji? {
      EntriesOne(style, f);
    }
  }

  lemma AllZerosIsZero(input: string)
    requires AllAscii(input)
    ensures NumberOf(input) == 0 <==> forall i | 0 <= i < |input| :: input[i] == '0'
  {
    if forall i | 0 <= i < |input| :: input[i] == '0' {
      NumberOfZeroText(input);
    } else {
      NonZeroText(input);
    }
  }

  lemma EntriesOne(style: Style, input: string)
    requires AllAscii(input) && |input| % 4 == 0 && |input| <= 20 && !style.OldKanji?
    ensures Entries(style, input) ==
            if |input| == 4 && style.Mixed() then [] else [NumberString(NumberText(style, input), Description(style), style)]
  {
    hide NumberText;
  }

  /** Every entry means the number, however large it is, the variants and the single characters included. */
  lemma EveryEntryMeans(input: string, e: NumberString)
    requires e in Converted(input).1
    ensures IsDecimalInteger(input) && Means(e.value, NumberOf(input))
  {
    hide NumberText, ReplaceTwoTen, HasTwoTen, NumberOf, Means;
    AllZerosIsZero(input);
    SingleMeans();
    if NumberOf(input) > 0 {
      EntryKinds(input, e);
      TextMeans(HalfWidth, input);
      TextMeans(FullWidth, input);
      TextMeans(KanjiStyle, input);
      TextMeans(OldKanji, input);
      TwentyTextMeans(input);
      FilledIsTenIff(input);
    }
  }

  lemma SingleMeans()
    ensures Means("零", 0) && Means("拾", 10) && Means("阡", 1000)
  {
    CharToken(FullTable, '零');
    CharToken(FullTable, '拾');
    CharToken(FullTable, '阡');
  }
}
