/**
 The loops of src/base/number_util.cc. An iterator into the tokens is an index `begin`; a
 reference parameter is returned. Each method agrees with the function of NumberReader,
 KanjiText or KanjiPrinter that the properties are proved about.
 */
module NumberUtil {
  import opened CheckedArithmetic
  import opened KanjiOutput
  import opened KanjiPrinter
  import opened KanjiRoundTrip
  import opened KanjiText
  import opened NumberReader
  import opened Options

  method ReduceLeadingNumbersAsBase10System(numbers: Tokens, begin: nat)
    returns (ok: bool, next: nat, output: U64)
    requires begin <= |numbers|
    ensures next <= |numbers| && Reduced(ok, numbers[next..], output) == ReduceBase10(numbers[begin..], 0)
  {
    hide ReduceBase10;
    next, output := begin, 0;
    while next < |numbers|
      invariant begin <= next <= |numbers|
      invariant ReduceBase10(numbers[begin..], 0) == ReduceBase10(numbers[next..], output)
    {
      Base10Step(numbers, next, output);
      if numbers[next] >= 10 {
        break;
      }
      var (fits, product) := MultiplyAndCheckOverflow(output, 10);
      output := product;
      if !fits {
        return false, next, output;
      }
      var (fitsToo, sum) := AddAndCheckOverflow(output, numbers[next]);
      output := sum;
      if !fitsToo {
        return false, next, output;
      }
      next := next + 1;
    }
    Base10End(numbers, next, output);
    return true, next, output;
  }

  /** One round of the loop, in terms of the tokens left. */
  lemma Base10Step(numbers: Tokens, i: nat, acc: U64)
    requires i < |numbers|
    ensures var s := numbers[i..]; var r := ReduceBase10(s, acc);
            if s[0] >= 10 then r == Reduced(true, s, acc)
            else
              var p := MultiplyAndCheckOverflow(acc, 10);
              if !p.0 then r == Reduced(false, s, p.1)
              else
                var a := AddAndCheckOverflow(p.1, s[0]);
                r == if a.0 then ReduceBase10(numbers[i + 1..], a.1) else Reduced(false, s, a.1)
  {
    hide MultiplyAndCheckOverflow, AddAndCheckOverflow;
    assert numbers[i..][1..] == numbers[i + 1..];
  }

  lemma Base10End(numbers: Tokens, i: nat, acc: U64)
    requires i <= |numbers| && (i == |numbers| || numbers[i] >= 10)
    ensures ReduceBase10(numbers[i..], acc) == Reduced(true, numbers[i..], acc)
  {}

  method ReduceOnesDigit(numbers: Tokens, begin: nat) returns (ok: bool, next: nat, num: U64)
    requires begin <= |numbers|
    ensures next <= |numbers| && Reduced(ok, numbers[next..], num) == ReduceOnes(numbers[begin..])
  {
    if begin == |numbers| || numbers[begin] >= 10 {
      return false, begin, 0;
    }
    return true, begin + 1, numbers[begin];
  }

  /** The loop at the head of ReduceDigitsHelper. */
  method SkipLeadingZeros(numbers: Tokens, begin: nat) returns (next: nat)
    requires begin <= |numbers|
    ensures begin <= next <= |numbers| && numbers[next..] == SkipZeros(numbers[begin..])
  {
    next := begin;
    while next != |numbers| && numbers[next] == 0
      invariant begin <= next <= |numbers|
      invariant SkipZeros(numbers[begin..]) == SkipZeros(numbers[next..])
      decreases |numbers| - next
    {
      assert numbers[next..][1..] == numbers[next + 1..];
      next := next + 1;
    }
  }

  method ReduceDigitsHelper(numbers: Tokens, begin: nat, expectedBase: U64)
    returns (ok: bool, next: nat, num: U64)
    requires begin <= |numbers| && IsBase(expectedBase)
    ensures next <= |numbers| && Reduced(ok, numbers[next..], num) == ReduceDigits(numbers[begin..], expectedBase)
  {
    hide ReduceBase10, SkipZeros;
    next := SkipLeadingZeros(numbers, begin);
    num := 0;
    if next == |numbers| {
      return false, next, 0;
    }
    var leadingNumber := numbers[next];
    if leadingNumber < 10 {
      if |numbers| - next < 2 {
        return false, next, 0;
      }
      var nextNumber := numbers[next + 1];
      if nextNumber < 10 {
        var reduced, end, value := ReduceLeadingNumbersAsBase10System(numbers, next);
        if !reduced || value >= expectedBase * 10 || (end != |numbers| && numbers[end] < 10000) {
          assert numbers[|numbers|..] == [];
          return false, |numbers|, 0;
        }
        return true, end, value;
      }
      if nextNumber != expectedBase || (leadingNumber == 1 && expectedBase != 1000) {
        return false, next, 0;
      }
      return true, next + 2, leadingNumber * expectedBase;
    }
    if leadingNumber == expectedBase || (expectedBase == 10 && leadingNumber == 20) {
      return true, next + 1, leadingNumber;
    }
    return false, next, 0;
  }

  method ReduceNumberLessThan10000(numbers: Tokens, begin: nat) returns (ok: bool, next: nat, num: U64)
    requires begin <= |numbers|
    ensures next <= |numbers| && Reduced(ok, numbers[next..], num) == ReduceGroup(numbers[begin..])
  {
    hide ReduceDigits, ReduceOnes;
    GroupBound(numbers[begin..]);
    num := 0;
    var success := false;
    var reduced, n;
    reduced, next, n := ReduceDigitsHelper(numbers, begin, 1000);
    if reduced {
      num := num + n;
      success := true;
    }
    reduced, next, n := ReduceDigitsHelper(numbers, next, 100);
    if reduced {
      num := num + n;
      success := true;
    }
    reduced, next, n := ReduceDigitsHelper(numbers, next, 10);
    if reduced {
      num := num + n;
      success := true;
    }
    reduced, next, n := ReduceOnesDigit(numbers, next);
    if reduced {
      num := num + n;
      success := true;
    }
    ok := success && (next == |numbers| || numbers[next] >= 10000);
  }

  method InterpretNumbersInJapaneseWay(numbers: Tokens) returns (ok: bool, output: U64)
    ensures ok == InJapaneseWay(numbers).0 && (ok ==> output == InJapaneseWay(numbers).1)
  {
    hide ReduceGroup, MultiplyAndCheckOverflow, AddAndCheckOverflow;
    var lastBase: U64 := MAX_U64;
    var begin := 0;
    output := 0;
    assert numbers[0..] == numbers;
    while true
      invariant begin <= |numbers|
      invariant InJapaneseWay(numbers) == Interpret(numbers[begin..], lastBase, output)
      decreases |numbers| - begin
    {
      var reduced, next, coef := ReduceNumberLessThan10000(numbers, begin);
      if !reduced {
        return false, output;
      }
      if next == |numbers| {
        var (fits, sum) := AddAndCheckOverflow(output, coef);
        return fits, sum;
      }
      if numbers[next] >= lastBase {
        return false, output;
      }
      var (fits, delta) := MultiplyAndCheckOverflow(coef, numbers[next]);
      if !fits {
        return false, output;
      }
      var (fitsToo, sum) := AddAndCheckOverflow(output, delta);
      output := sum;
      if !fitsToo {
        return false, output;
      }
      assert numbers[next..][1..] == numbers[next + 1..] && |numbers[next..]| <= |numbers[begin..]|;
      lastBase, begin := numbers[next], next + 1;
      if begin == |numbers| {
        return true, output;
      }
    }
  }

  method NormalizeNumbersHelper(numbers: Tokens) returns (ok: bool, output: U64)
    ensures ok == ReadNumber(numbers).0 && (ok ==> output == ReadNumber(numbers).1)
  {
    hide ReduceBase10, Interpret;
    if |numbers| == 0 {
      return false, 0;
    }
    var max := numbers[0];
    for i := 1 to |numbers|
      invariant forall j | 0 <= j < i :: numbers[j] <= max
      invariant exists j | 0 <= j < i :: numbers[j] == max
    {
      if max < numbers[i] {
        max := numbers[i];
      }
    }
    if max < 10 {
      AllDigitsRun(numbers);
      var reduced, next, value := ReduceLeadingNumbersAsBase10System(numbers, 0);
      assert numbers[0..] == numbers;
      return reduced && next == |numbers|, value;
    }
    assert Run(numbers) != numbers by {
      var j :| 0 <= j < |numbers| && numbers[j] == max;
    }
    ok, output := InterpretNumbersInJapaneseWay(numbers);
  }

  /** The kanji form and, when the text is a number, its decimal digits. */
  method NormalizeNumbers(input: string, trimLeadingZeros: bool)
    returns (ok: bool, kanjiOutput: string, arabicOutput: string)
    ensures match Normalize(input, trimLeadingZeros)
            case Rejected => !ok
            case Accepted(kanji, arabic) => ok && kanjiOutput == kanji && arabicOutput == arabic
  {
    hide TokenOf, ReadNumber, Decimal, KanjiChar, SkipZeros;
    kanjiOutput, arabicOutput := "", "";
    var numbers: Tokens := [];
    for i := 0 to |input|
      invariant TokensOf(TokenOf, input[..i]) == Some(numbers) && kanjiOutput == KanjiForm(input[..i])
    {
      var n := TokenOf(input[i]);
      assert input[..i + 1] == input[..i] + [input[i]] && input == input[..i + 1] + input[i + 1..];
      TokensOfConcat(TokenOf, input[..i], [input[i]]);
      TokensOfConcat(TokenOf, input[..i + 1], input[i + 1..]);
      CharToken(TokenOf, input[i]);
      if n.None? {
        return false, kanjiOutput, arabicOutput;
      }
      kanjiOutput := kanjiOutput + [KanjiChar(input[i])];
      numbers := numbers + [n.value];
    }
    assert input[..|input|] == input;
    ReadNumberNonEmpty(numbers);
    if |numbers| == 0 {
      return false, kanjiOutput, arabicOutput;
    }
    var read, n := NormalizeNumbersHelper(numbers);
    if !read {
      return false, kanjiOutput, arabicOutput;
    }
    if !trimLeadingZeros {
      var numZeros := SkipLeadingZeros(numbers, 0);
      assert numbers[0..] == numbers;
      if numZeros == |numbers| {
        numZeros := numZeros - 1;
      }
      arabicOutput := seq(numZeros, _ => '0');
    }
    arabicOutput := arabicOutput + Decimal(n);
    ok := true;
  }

  // ---------------------------------------------------------------------------
  // ArabicToKanji
  // ---------------------------------------------------------------------------

  /** The inner loop: one group of four digits. */
  method PrintSegment(style: Style, segment: string) returns (segmentResult: string)
    requires |segment| == 4 && AllAscii(segment)
    ensures segmentResult == GroupText(style, segment, 0, true)
  {
    hide DigitText, RankText;
    segmentResult := "";
    var leading := true;
    for i := 0 to 4
      invariant GroupText(style, segment, 0, true) == segmentResult + GroupText(style, segment, i, leading)
    {
      if leading && segment[i] == '0' {
        continue;
      }
      ghost var before, was := segmentResult, leading;
      leading := false;
      var d := DigitValue(segment[i]);
      if style.Mixed() {
        segmentResult := segmentResult + DigitText(style, d);
      } else if segment[i] != '0' {
        if style.OldKanji? || i == 3 || segment[i] != '1' {
          segmentResult := segmentResult + DigitText(style, d);
        }
        segmentResult := segmentResult + RankText(style, 4 - i);
      }
      AppendPiece(before, style, segment, i, was, segmentResult);
    }
  }

  lemma AppendPiece(before: string, style: Style, segment: string, i: nat, leading: bool, after: string)
    requires |segment| == 4 && AllAscii(segment) && i < 4 && !(leading && segment[i] == '0')
    requires var c := segment[i]; var d := DigitText(style, DigitValue(c));
             after ==
             if style.Mixed() then before + d
             else if c == '0' then before
             else if style.OldKanji? || i == 3 || c != '1' then (before + d) + RankText(style, 4 - i)
             else before + RankText(style, 4 - i)
    ensures before + GroupText(style, segment, i, leading) == after + GroupText(style, segment, i + 1, false)
  {
    hide DigitText, RankText;
    var piece := Piece(style, segment[i], i);
    assert after == before + piece;
    assert before + (piece + GroupText(style, segment, i + 1, false)) == (before + piece) + GroupText(style, segment, i + 1, false);
  }

  /** The middle loop: the segments from the highest rank down. */
  method PrintNumber(style: Style, input: string, rankedNumbers: seq<string>) returns (result: string)
    requires AllAscii(input) && 4 * |rankedNumbers| == |input| <= 20
    requires forall rank | 0 <= rank < |rankedNumbers| ::
        rankedNumbers[rank] == input[|input| - 4 * rank - 4..|input| - 4 * rank]
    ensures result == NumberText(style, input)
  {
    hide GroupText, BiggerRankText, NumberText;
    result := "";
    var rank := |rankedNumbers|;
    assert input[0..] == input && "" + NumberText(style, input) == NumberText(style, input);
    while rank > 0
      invariant 0 <= rank <= |rankedNumbers|
      invariant NumberText(style, input) == result + NumberText(style, input[|input| - 4 * rank..])
    {
      ghost var before, left := result, input[|input| - 4 * rank..];
      rank := rank - 1;
      var segment := rankedNumbers[rank];
      LeftSlices(input, rank);
      var segmentResult := PrintSegment(style, segment);
      if segmentResult != "" {
        result := result + (segmentResult + BiggerRankText(style, rank));
      }
      AppendGroup(before, style, left, segmentResult, result);
    }
    assert NumberText(style, "") == "" by { NothingPrinted(style); }
    assert input[|input|..] == "" && result + "" == result;
  }

  lemma NothingPrinted(style: Style)
    ensures NumberText(style, "") == ""
  {}

  lemma LeftSlices(input: string, rank: nat)
    requires 4 * rank + 4 <= |input|
    ensures var left := input[|input| - 4 * (rank + 1)..];
            && left[..4] == input[|input| - 4 * rank - 4..|input| - 4 * rank]
            && left[4..] == input[|input| - 4 * rank..]
  {}

  lemma AppendGroup(before: string, style: Style, left: string, segmentResult: string, after: string)
    requires AllAscii(left) && |left| % 4 == 0 && 4 <= |left| <= 20
    requires segmentResult == GroupText(style, left[..4], 0, true)
    requires after == if segmentResult == "" then before else before + (segmentResult + BiggerRankText(style, |left| / 4 - 1))
    ensures before + NumberText(style, left) == after + NumberText(style, left[4..])
  {
    hide GroupText, BiggerRankText;
    var group := if segmentResult == "" then "" else segmentResult + BiggerRankText(style, |left| / 4 - 1);
    assert after == before + group;
    assert before + (group + NumberText(style, left[4..])) == (before + group) + NumberText(style, left[4..]);
  }

  method ArabicToKanji(inputNum: string) returns (ok: bool, output: seq<NumberString>)
    ensures (ok, output) == Converted(inputNum)
    ensures ok <==> IsDecimalInteger(inputNum) && (NumberOf(inputNum) == 0 || |inputNum| <= 20)
    ensures !ok ==> output == []
    ensures ok && NumberOf(inputNum) == 0 ==> output == [NumberString("零", "大字", OldKanji)]
    ensures ok && NumberOf(inputNum) > 0 ==> Promised(inputNum, output)
  {
    hide NumberText, Entries, NumberOf, Promised;
    output := [];
    if !IsDecimalInteger(inputNum) {
      return false, output;
    }
    AllZerosIsZero(inputNum);
    var i := 0;
    while i < |inputNum| && inputNum[i] == '0'
      invariant 0 <= i <= |inputNum| && forall j | 0 <= j < i :: inputNum[j] == '0'
    {
      i := i + 1;
    }
    if i == |inputNum| {
      return true, [NumberString("零", "大字", OldKanji)];
    }
    if |inputNum| > 20 {
      return false, output;
    }
    var input := Filled(inputNum);
    var rankedNumbers := Segments(input);
    var variations := [HalfWidth, FullWidth, KanjiStyle, OldKanji];
    for v := 0 to 4
      invariant output == EntriesUpTo(input, v)
    {
      var style := variations[v];
      if |rankedNumbers| == 1 && style.Mixed() {
        assert Entries(style, input) == [] by { NoMixedEntry(style, input); }
        continue;
      }
      var result := PrintNumber(style, input, rankedNumbers);
      var added := [NumberString(result, Description(style), style)];
      if style.OldKanji? {
        if HasTwoTen(result) {
          added := added + [NumberString(ReplaceTwoTen(result), "大字", OldKanji)];
        }
        if input == "0010" {
          added := added + [NumberString("拾", "大字", OldKanji)];
        }
        if input == "1000" {
          added := added + [NumberString("阡", "大字", OldKanji)];
        }
      }
      assert added == Entries(style, input) by { EntriesFromText(style, input, added); }
      output := output + added;
    }
    AllEntries(input);
    ConvertedAsPromised(inputNum);
    ok := true;
  }

  lemma AllEntries(input: string)
    requires AllAscii(input) && |input| % 4 == 0 && |input| <= 20
    ensures EntriesUpTo(input, 4) == Entries(HalfWidth, input) + Entries(FullWidth, input) + Entries(KanjiStyle, input)
                                     + Entries(OldKanji, input)
  {
    hide Entries;
    assert EntriesUpTo(input, 1) == [] + Entries(HalfWidth, input) == Entries(HalfWidth, input);
    assert EntriesUpTo(input, 2) == EntriesUpTo(input, 1) + Entries(FullWidth, input);
    assert EntriesUpTo(input, 3) == EntriesUpTo(input, 2) + Entries(KanjiStyle, input);
  }

  /** What the first `v` variations add. */
  ghost function EntriesUpTo(input: string, v: nat): seq<NumberString>
    requires AllAscii(input) && |input| % 4 == 0 && |input| <= 20 && v <= 4
  {
    if v == 0 then []
    else EntriesUpTo(input, v - 1)
         + Entries(if v == 1 then HalfWidth else if v == 2 then FullWidth else if v == 3 then KanjiStyle else OldKanji, input)
  }

  lemma NoMixedEntry(style: Style, input: string)
    requires AllAscii(input) && |input| == 4 && style.Mixed()
    ensures Entries(style, input) == []
  {}

  lemma EntriesFromText(style: Style, input: string, added: seq<NumberString>)
    requires AllAscii(input) && |input| % 4 == 0 && |input| <= 20 && !(|input| == 4 && style.Mixed())
    requires var text := NumberText(style, input);
             var first := [NumberString(text, Description(style), style)];
             var second := if style.OldKanji? && HasTwoTen(text) then first + [NumberString(ReplaceTwoTen(text), "大字", OldKanji)] else first;
             var third := if style.OldKanji? && input == "0010" then second + [NumberString("拾", "大字", OldKanji)] else second;
             added == if style.OldKanji? && input == "1000" then third + [NumberString("阡", "大字", OldKanji)] else third
    ensures added == Entries(style, input)
  {
    hide NumberText, ReplaceTwoTen, HasTwoTen;
  }

  /** The four-digit pieces of `input`, the least significant one first. */
  method Segments(input: string) returns (rankedNumbers: seq<string>)
    requires AllAscii(input) && |input| % 4 == 0
    ensures 4 * |rankedNumbers| == |input|
    ensures forall rank | 0 <= rank < |rankedNumbers| ::
        rankedNumbers[rank] == input[|input| - 4 * rank - 4..|input| - 4 * rank]
  {
    rankedNumbers := [];
    var i := |input| - 4;
    while i >= 0
      invariant -4 <= i && 4 * |rankedNumbers| == |input| - 4 - i
      invariant forall rank | 0 <= rank < |rankedNumbers| ::
          rankedNumbers[rank] == input[|input| - 4 * rank - 4..|input| - 4 * rank]
    {
      rankedNumbers := rankedNumbers + [input[i..i + 4]];
      i := i - 4;
    }
  }
}
