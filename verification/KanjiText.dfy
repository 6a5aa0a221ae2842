/**
 Numbers as text: the character tables of src/base/number_util.cc and of
 src/data/preedit/kanjinumber-arabicnumber.tsv, NormalizeNumbersInternal and decimal output.
 */
module KanjiText {
  import opened CheckedArithmetic
  import opened NumberReader
  import opened Options

  /** The value of one character, as the data file lists it. */
  function TokenOf(c: char): (t: Option<U64>) {
    match c
    case '零' => Some(0) case '一' => Some(1) case '二' => Some(2) case '三' => Some(3) case '四' => Some(4)
    case '五' => Some(5) case '六' => Some(6) case '七' => Some(7) case '八' => Some(8) case '九' => Some(9)
    case '十' => Some(10) case '百' => Some(100) case '千' => Some(1000) case '万' => Some(10000)
    case '億' => Some(1_0000_0000) case '兆' => Some(1_0000_0000_0000) case '京' => Some(1_0000_0000_0000_0000)
    case '壱' => Some(1) case '弐' => Some(2) case '参' => Some(3)
    case '拾' => Some(10) case '廿' => Some(20) case '卅' => Some(30) case '卌' => Some(40)
    case _ => if IsAsciiDigit(c) || IsWideDigit(c) then Some(DigitValue(c)) else None
  }

  predicate IsAsciiDigit(c: char) {
    '0' <= c <= '9'
  }

  predicate IsWideDigit(c: char) {
    '０' <= c <= '９'
  }

  function DigitValue(c: char): (d: U64)
    requires IsAsciiDigit(c) || IsWideDigit(c)
    ensures d < 10
  {
    if IsAsciiDigit(c) then c as int - '0' as int else c as int - '０' as int
  }

  /** A character table: what each character is worth, if it is a number at all. */
  type Table = char -> Option<U64>

  /** The values of all characters of `text`; None when one of them is not a number. */
  function TokensOf(table: Table, text: string): (ts: Option<Tokens>)
    ensures ts.Some? ==> |ts.value| == |text|
  {
    if text == "" then Some([])
    else
      match (table(text[0]), TokensOf(table, text[1..]))
      case (Some(t), Some(ts)) => Some([t] + ts)
      case _ => None
  }

  lemma {:induction false} TokensOfConcat(table: Table, a: string, b: string)
    ensures TokensOf(table, a + b) ==
            match (TokensOf(table, a), TokensOf(table, b))
            case (Some(s), Some(t)) => Some(s + t)
            case _ => None
  {
    if a == "" {
      assert a + b == b;
      if TokensOf(table, b).Some? {
        assert [] + TokensOf(table, b).value == TokensOf(table, b).value;
      }
    } else {
      assert (a + b)[1..] == a[1..] + b;
      TokensOfConcat(table, a[1..], b);
      if table(a[0]).Some? && TokensOf(table, a[1..]).Some? && TokensOf(table, b).Some? {
        var t, s, r := table(a[0]).value, TokensOf(table, a[1..]).value, TokensOf(table, b).value;
        assert ([t] + s) + r == [t] + (s + r);
      }
    }
  }

  const KANJI_DIGITS := "〇一二三四五六七八九"

  /** The character the kanji form of a text has for `c`. */
  function KanjiChar(c: char): char {
    if IsAsciiDigit(c) || IsWideDigit(c) then KANJI_DIGITS[DigitValue(c)] else c
  }

  function KanjiForm(text: string): (k: string)
    ensures |k| == |text|
  {
    seq(|text|, i requires 0 <= i < |text| => KanjiChar(text[i]))
  }

  /** The decimal digits of `n`, as "%u" prints them. */
  function Decimal(n: nat): (s: string) {
    if n < 10 then [DigitChar(n)] else Decimal(n / 10) + [DigitChar(n % 10)]
  }

  function DigitChar(d: nat): (c: char)
    requires d < 10
    ensures IsAsciiDigit(c) && DigitValue(c) == d
  {
    ('0' as int + d) as char
  }

  /** How many zeros lead `s`. */
  function LeadingZeros(s: Tokens): (n: nat)
    ensures n <= |s|
  {
    |s| - |SkipZeros(s)|
  }

  /** The zeros that `trim_leading_zeros == false` keeps: one fewer when there is nothing else. */
  function KeptZeros(s: Tokens): (n: nat)
    requires s != []
  {
    if LeadingZeros(s) == |s| then |s| - 1 else LeadingZeros(s)
  }

  datatype Normalized = Rejected | Accepted(kanji: string, arabic: string)

  /** NormalizeNumbers. */
  function Normalize(input: string, trim: bool): (n: Normalized) {
    match TokensOf(TokenOf, input)
    case None => Rejected
    case Some(ts) =>
      var r := ReadNumber(ts);
      if !r.0 then Rejected
      else
        ReadNumberNonEmpty(ts);
        Accepted(KanjiForm(input), (if trim then "" else seq(KeptZeros(ts), _ => '0')) + Decimal(r.1))
  }

  lemma ReadNumberNonEmpty(ts: Tokens)
    ensures ReadNumber(ts).0 ==> ts != []
  {}

  // ---------------------------------------------------------------------------
  // Decimal digits in and out
  // ---------------------------------------------------------------------------

  predicate IsDecimalInteger(s: string) {
    s != "" && forall i | 0 <= i < |s| :: IsAsciiDigit(s[i])
  }

  predicate AllAscii(s: string) {
    forall i | 0 <= i < |s| :: IsAsciiDigit(s[i])
  }

  function DigitsOf(s: string): (ds: Tokens)
    requires AllAscii(s)
    ensures |ds| == |s|
    ensures forall i | 0 <= i < |ds| :: ds[i] < 10 && s[i] == DigitChar(ds[i])
  {
    seq(|s|, i requires 0 <= i < |s| => DigitValue(s[i]))
  }

  lemma {:induction false} AsciiTokens(s: string)
    requires AllAscii(s)
    ensures TokensOf(TokenOf, s) == Some(DigitsOf(s))
  {
    hide TokenOf;
    if s != "" {
      AsciiTokens(s[1..]);
      AsciiToken(s[0]);
      assert DigitsOf(s) == [DigitValue(s[0])] + DigitsOf(s[1..]);
    }
  }

  lemma AsciiToken(c: char)
    requires IsAsciiDigit(c)
    ensures TokenOf(c) == Some(DigitValue(c))
  {}

  lemma {:induction false} PositionalSnoc(ds: Tokens, d: U64, acc: nat)
    ensures Positional(ds + [d], acc) == Positional(ds, acc) * 10 + d
  {
    if ds == [] {
      assert [] + [d] == [d] && [d][1..] == [];
    } else {
      assert (ds + [d])[1..] == ds[1..] + [d];
      PositionalSnoc(ds[1..], d, acc * 10 + ds[0]);
    }
  }

  /** Printing in decimal undoes positional reading, for digits without leading zeros. */
  lemma {:induction false} DecimalOfPositional(s: string)
    requires AllAscii(s) && s != "" && (s[0] != '0' || |s| == 1)
    ensures Decimal(Positional(DigitsOf(s), 0)) == s
    ensures s[0] != '0' ==> Positional(DigitsOf(s), 0) > 0
  {
    var init, last := s[..|s| - 1], DigitValue(s[|s| - 1]);
    assert DigitsOf(s) == DigitsOf(init) + [last];
    PositionalSnoc(DigitsOf(init), last, 0);
    if init != "" {
      DecimalOfPositional(init);
      assert s == init + [s[|s| - 1]];
    }
  }

  lemma {:induction false} AllDigitsRun(ts: Tokens)
    requires forall i | 0 <= i < |ts| :: ts[i] < 10
    ensures Run(ts) == ts
  {
    if ts != [] {
      AllDigitsRun(ts[1..]);
    }
  }

  lemma {:induction false} ZerosKeepPositional(ts: Tokens)
    ensures Positional(SkipZeros(ts), 0) == Positional(ts, 0)
    ensures forall i | 0 <= i < LeadingZeros(ts) :: ts[i] == 0
  {
    if ts != [] && ts[0] == 0 {
      ZerosKeepPositional(ts[1..]);
      assert forall i | 1 <= i < LeadingZeros(ts) :: ts[i] == ts[1..][i - 1];
    }
  }

  lemma ZerosAsText(s: string, n: nat)
    requires AllAscii(s) && n <= |s| && forall i | 0 <= i < n :: DigitsOf(s)[i] == 0
    ensures s[..n] == seq(n, _ => '0')
  {
    forall i | 0 <= i < n
      ensures s[i] == '0'
    {
      assert s[i] == DigitChar(DigitsOf(s)[i]);
    }
  }

  lemma DigitsOfSuffix(s: string, n: nat)
    requires AllAscii(s) && n <= |s|
    ensures DigitsOf(s)[n..] == DigitsOf(s[n..])
  {}

  /** Zeros kept in front and the number printed after them make up the digits again. */
  lemma ZerosThenDecimal(s: string)
    requires IsDecimalInteger(s)
    ensures seq(KeptZeros(DigitsOf(s)), _ => '0') + Decimal(Positional(DigitsOf(s), 0)) == s
  {
    hide Positional, Decimal, SkipZeros, DigitsOf;
    var ds := DigitsOf(s);
    var n := LeadingZeros(ds);
    ZerosKeepPositional(ds);
    ZerosAsText(s, n);
    if n == |s| {
      assert SkipZeros(ds) == [];
      ZeroInDecimal();
      assert s[..n] == s && seq(n, _ => '0') == seq(n - 1, _ => '0') + "0";
    } else {
      DigitsOfSuffix(s, n);
      assert s[n..][0] == DigitChar(ds[n]) != '0';
      DecimalOfPositional(s[n..]);
      assert s == s[..n] + s[n..];
    }
  }

  lemma ZeroInDecimal()
    ensures Decimal(Positional([], 0)) == "0"
  {}

  /** Without trimming, an ASCII number that fits in 64 bits is returned unchanged, zeros and all. */
  lemma AsciiUnchanged(s: string)
    requires IsDecimalInteger(s)
    ensures Normalize(s, false) == if Positional(DigitsOf(s), 0) <= MAX_U64 then Accepted(KanjiForm(s), s) else Rejected
  {
    hide Decimal, KeptZeros, TokenOf, KanjiForm;
    var ds := DigitsOf(s);
    AsciiTokens(s);
    AllDigitsRun(ds);
    ReduceBase10Exact(ds, 0);
    ZerosThenDecimal(s);
  }
}
