/**
 The tokens ArabicToKanji prints, group by group, and the proof that the reader takes them
 back to the number they were printed from.
 */
module NumberPrinter {
  import opened CheckedArithmetic
  import opened NumberMeaning
  import opened NumberReader
  import opened Options

  /** Decimal digits, most significant first. */
  type Digits = ds: seq<U64> | forall i | 0 <= i < |ds| :: ds[i] < 10

  function Pow10000(n: nat): (p: nat)
    ensures p >= 1
  {
    if n == 0 then 1 else 10000 * Pow10000(n - 1)
  }

  /** Four digits. */
  function GroupValue(g: Digits): (v: U64)
    requires |g| == 4
    ensures v < 10000
  {
    1000 * g[0] + 100 * g[1] + 10 * g[2] + g[3]
  }

  /** The number that groups of four digits denote. */
  function Value(ds: Digits): nat
    requires |ds| % 4 == 0
  {
    hide GroupValue, Pow10000;
    if ds == [] then 0 else GroupValue(ds[..4]) * Pow10000(|ds| / 4 - 1) + Value(ds[4..])
  }

  /** One digit and its rank: NUMBER_KANJI leaves out a 1 before the rank. */
  function KanjiPart(x: U64, base: U64): Tokens {
    if x == 0 then [] else if x == 1 then [base] else [x, base]
  }

  /** NUMBER_OLD_KANJI writes the 1 as well. */
  function OldPart(x: U64, base: U64): Tokens {
    if x == 0 then [] else [x, base]
  }

  /** The variant that writes one character for twenty. */
  function TwentyPart(x: U64): Tokens {
    if x == 2 then [20] else OldPart(x, 10)
  }

  function OnesPart(x: U64): Tokens {
    if x == 0 then [] else [x]
  }

  function KanjiGroup(g: Digits): Tokens
    requires |g| == 4
  {
    KanjiPart(g[0], 1000) + (KanjiPart(g[1], 100) + (KanjiPart(g[2], 10) + OnesPart(g[3])))
  }

  function OldGroup(g: Digits): Tokens
    requires |g| == 4
  {
    OldPart(g[0], 1000) + (OldPart(g[1], 100) + (OldPart(g[2], 10) + OnesPart(g[3])))
  }

  function TwentyGroup(g: Digits): Tokens
    requires |g| == 4
  {
    OldPart(g[0], 1000) + (OldPart(g[1], 100) + (TwentyPart(g[2]) + OnesPart(g[3])))
  }

  /** The mixed styles print the digits after leading zeros. */
  function MixedGroup(g: Digits): Tokens
    requires |g| == 4
  {
    SkipZeros(g)
  }

  datatype Notation = Kanji | Old | Twenty | Mixed {
    function Group(g: Digits): Tokens
      requires |g| == 4
    {
      match this
      case Kanji => KanjiGroup(g)
      case Old => OldGroup(g)
      case Twenty => TwentyGroup(g)
      case Mixed => MixedGroup(g)
    }

    /** The reader does not accept "one ten" and "one hundred" written out. */
    predicate Readable(g: Digits)
      requires |g| == 4
    {
      (Old? || Twenty?) ==> g[1] != 1 && g[2] != 1
    }
  }

  /** All groups, each followed by its big rank. Zero groups print nothing. */
  function Printed(n: Notation, ds: Digits): Tokens
    requires |ds| % 4 == 0 && |ds| <= 20
  {
    if ds == [] then []
    else if GroupValue(ds[..4]) == 0 then Printed(n, ds[4..])
    else n.Group(ds[..4]) + (BigRank(|ds| / 4 - 1) + Printed(n, ds[4..]))
  }

  function BigRank(rank: nat): Tokens
    requires rank < 5
  {
    if rank == 0 then [] else RankFits(rank); [Pow10000(rank)]
  }

  lemma RankFits(rank: nat)
    requires rank < 5
    ensures Pow10000(rank) < MAX_U64
    ensures rank >= 1 ==> Pow10000(rank) >= 10000
  {
    assert Pow10000(1) == 10000;
    assert Pow10000(2) == 10000 * 10000;
    assert Pow10000(3) == 10000 * 10000 * 10000;
    assert Pow10000(4) == 10000 * 10000 * 10000 * 10000;
  }

  predicate AllReadable(n: Notation, ds: Digits)
    requires |ds| % 4 == 0
  {
    ds == [] || (n.Readable(ds[..4]) && AllReadable(n, ds[4..]))
  }

  // ---------------------------------------------------------------------------
  // One group
  // ---------------------------------------------------------------------------

  /** Tokens the reducer for `base` leaves alone. */
  predicate NotFor(s: Tokens, base: U64) {
    s == [] || (s[0] != 0 && if s[0] < 10 then |s| == 1 || (s[1] >= 10 && s[1] != base)
                             else s[0] != base && !(base == 10 && s[0] == 20))
  }

  lemma NotForFails(s: Tokens, base: U64)
    requires IsBase(base) && NotFor(s, base)
    ensures ReduceDigits(s, base) == Reduced(false, s, 0)
  {
    hide ReduceBase10;
  }

  /** A rank that stands alone, or the character for twenty. */
  lemma RankRead(r: U64, base: U64, rest: Tokens)
    requires IsBase(base) && (r == base || (base == 10 && r == 20))
    ensures ReduceDigits([r] + rest, base) == Reduced(true, rest, r)
  {
    hide ReduceBase10;
    var s := [r] + rest;
    assert SkipZeros(s) == s && s[1..] == rest;
  }

  /** A digit and its rank. */
  lemma PairRead(x: U64, base: U64, rest: Tokens)
    requires IsBase(base) && 1 <= x < 10 && (x != 1 || base == 1000)
    ensures ReduceDigits([x, base] + rest, base) == Reduced(true, rest, x * base)
  {
    hide ReduceBase10;
    var s := [x, base] + rest;
    assert SkipZeros(s) == s && s[2..] == rest && s[1] == base;
  }

  /** What one digit of a group leaves for its reducer, and what the reducer makes of it. */
  predicate ReadsAs(part: Tokens, x: U64, base: U64)
    requires IsBase(base) && x < 10
  {
    if x == 0 then part == []
    else
      || (part == [x, base] && (x != 1 || base == 1000))
      || (part == [base] && x == 1)
      || (part == [20] && x == 2 && base == 10)
  }

  lemma PartRead(part: Tokens, x: U64, base: U64, rest: Tokens)
    requires IsBase(base) && x < 10 && ReadsAs(part, x, base)
    requires x == 0 ==> NotFor(rest, base)
    ensures ReduceDigits(part + rest, base) == Reduced(x != 0, rest, x * base)
  {
    hide ReduceDigits, NotFor;
    if x == 0 {
      assert part + rest == rest;
      NotForFails(rest, base);
    } else if |part| == 1 {
      RankRead(part[0], base, rest);
    } else {
      PairRead(x, base, rest);
    }
  }

  /** Four parts in a row are read as the number their digits make. */
  lemma PartsRead(g: Digits, k: Tokens, h: Tokens, t: Tokens, tail: Tokens)
    requires |g| == 4 && GroupValue(g) > 0 && GroupOver(tail)
    requires ReadsAs(k, g[0], 1000) && ReadsAs(h, g[1], 100) && ReadsAs(t, g[2], 10)
    ensures ReduceGroup(k + (h + (t + (OnesPart(g[3]) + tail)))) == Reduced(true, tail, GroupValue(g))
  {
    hide ReduceDigits;
    var s3 := OnesPart(g[3]) + tail;
    var s2 := t + s3;
    var s1 := h + s2;
    PartRead(t, g[2], 10, s3);
    PartRead(h, g[1], 100, s2);
    PartRead(k, g[0], 1000, s1);
    assert g[3] != 0 ==> s3[1..] == tail;
    assert g[3] == 0 ==> s3 == tail;
  }

  /** A written-out one before 100 or 10 stops every reducer. */
  lemma OneRankFails(rank: U64, base: U64, rest: Tokens)
    requires IsBase(rank) && IsBase(base) && rank <= 100 && (base == rank || NotFor([1, rank] + rest, base))
    ensures ReduceDigits([1, rank] + rest, base) == Reduced(false, [1, rank] + rest, 0)
  {
    hide ReduceBase10;
    var s := [1, rank] + rest;
    assert SkipZeros(s) == s && s[1] == rank;
  }

  /** So a group with a written-out one in its tens or hundreds is refused. */
  lemma PartsRefused(g: Digits, t: Tokens, tail: Tokens)
    requires |g| == 4 && (g[1] == 1 || g[2] == 1) && GroupOver(tail)
    requires t == OldPart(g[2], 10) || t == TwentyPart(g[2])
    ensures !ReduceGroup(OldPart(g[0], 1000) + (OldPart(g[1], 100) + (t + (OnesPart(g[3]) + tail)))).ok
  {
    hide ReduceDigits;
    var s3 := OnesPart(g[3]) + tail;
    var s2 := t + s3;
    var s1 := OldPart(g[1], 100) + s2;
    PartRead(OldPart(g[0], 1000), g[0], 1000, s1);
    if g[1] == 1 {
      OneRankFails(100, 100, s2);
      OneRankFails(100, 10, s2);
      assert s1[1..][0] == 100;
    } else {
      PartRead(OldPart(g[1], 100), g[1], 100, s2);
      OneRankFails(10, 10, s3);
      assert s2[1..][0] == 10;
    }
  }

  lemma {:induction false} RunOfDigits(t: Digits, tail: Tokens)
    requires GroupOver(tail)
    ensures Run(t + tail) == t
  {
    if t == [] {
      assert t + tail == tail;
    } else {
      assert (t + tail)[1..] == t[1..] + tail;
      RunOfDigits(t[1..], tail);
    }
  }

  lemma MixedRead(g: Digits, tail: Tokens)
    requires |g| == 4 && GroupValue(g) > 0 && GroupOver(tail)
    ensures ReduceGroup(SkipZeros(g) + tail) == Reduced(true, tail, GroupValue(g))
  {
    hide ReduceGroup, SkipZeros, Positional;
    PositionalOfGroup(g);
    SkipZerosKeepsValue(g);
    if |SkipZeros(g)| == 1 {
      assert SkipZeros(g) == [SkipZeros(g)[0]];
      OneDigit(SkipZeros(g)[0]);
      OneDigitRead(SkipZeros(g)[0], tail);
    } else {
      ManyDigitsRead(SkipZeros(g), tail);
    }
  }

  lemma OneDigit(x: U64)
    ensures Positional([x], 0) == x
  {}

  lemma {:induction false} SkipZerosKeepsValue(s: Digits)
    ensures Positional(SkipZeros(s), 0) == Positional(s, 0)
    ensures SkipZeros(s) == [] ==> Positional(s, 0) == 0
  {
    if s != [] && s[0] == 0 {
      SkipZerosKeepsValue(s[1..]);
    }
  }

  lemma PositionalOfGroup(g: Digits)
    requires |g| == 4
    ensures Positional(g, 0) == GroupValue(g)
  {
    var g1, g2, g3 := g[1..], g[2..], g[3..];
    assert g1[1..] == g2 && g2[1..] == g3 && g3[1..] == [];
    assert Positional(g, 0) == Positional(g1, g[0]);
    assert Positional(g1, g[0]) == Positional(g2, g[0] * 10 + g[1]);
    assert Positional(g2, g[0] * 10 + g[1]) == Positional(g3, (g[0] * 10 + g[1]) * 10 + g[2]);
  }

  lemma OneDigitRead(x: U64, tail: Tokens)
    requires 1 <= x < 10 && GroupOver(tail)
    ensures ReduceGroup([x] + tail) == Reduced(true, tail, x)
  {
    hide ReduceDigits;
    NotForFails([x] + tail, 1000);
    NotForFails([x] + tail, 100);
    NotForFails([x] + tail, 10);
  }

  lemma RunRead(t: Digits, tail: Tokens)
    requires |t| >= 2 && t[0] != 0 && Positional(t, 0) < 10000 && GroupOver(tail)
    ensures ReduceDigits(t + tail, 1000) == Reduced(true, tail, Positional(t, 0))
  {
    hide ReduceBase10, Positional, Run;
    var s := t + tail;
    RunOfDigits(t, tail);
    ReduceBase10Exact(s, 0);
    assert s[|t|..] == tail && SkipZeros(s) == s;
    assert ReduceBase10(s, 0) == Reduced(true, tail, Positional(t, 0));
    assert s[0] == t[0] && s[1] == t[1];
    assert !GivesUp(s, 1000);
  }

  lemma ManyDigitsRead(t: Digits, tail: Tokens)
    requires |t| >= 2 && t[0] != 0 && Positional(t, 0) < 10000 && GroupOver(tail)
    ensures ReduceGroup(t + tail) == Reduced(true, tail, Positional(t, 0))
  {
    hide ReduceDigits, Positional;
    RunRead(t, tail);
    NothingLeft(tail, 100);
    NothingLeft(tail, 10);
  }

  /** Whatever the notation, a readable group is read as its value, and an unreadable one refused. */
  lemma GroupRead(n: Notation, g: Digits, tail: Tokens)
    requires |g| == 4 && GroupValue(g) > 0 && GroupOver(tail)
    ensures if n.Readable(g) then ReduceGroup(n.Group(g) + tail) == Reduced(true, tail, GroupValue(g))
            else !ReduceGroup(n.Group(g) + tail).ok
  {
    hide ReduceGroup, SkipZeros;
    if n.Mixed? {
      MixedRead(g, tail);
    } else if n.Kanji? {
      Reassociate(KanjiPart(g[0], 1000), KanjiPart(g[1], 100), KanjiPart(g[2], 10), OnesPart(g[3]), tail);
      PartsRead(g, KanjiPart(g[0], 1000), KanjiPart(g[1], 100), KanjiPart(g[2], 10), tail);
    } else {
      var t := if n.Old? then OldPart(g[2], 10) else TwentyPart(g[2]);
      Reassociate(OldPart(g[0], 1000), OldPart(g[1], 100), t, OnesPart(g[3]), tail);
      if n.Readable(g) {
        PartsRead(g, OldPart(g[0], 1000), OldPart(g[1], 100), t, tail);
      } else {
        PartsRefused(g, t, tail);
      }
    }
  }

  lemma Reassociate(a: Tokens, b: Tokens, c: Tokens, d: Tokens, tail: Tokens)
    ensures (a + (b + (c + d))) + tail == a + (b + (c + (d + tail)))
  {}

  // ---------------------------------------------------------------------------
  // The whole number
  // ---------------------------------------------------------------------------

  lemma ZeroValue(ds: Digits)
    requires |ds| % 4 == 0 && ds != []
    ensures Value(ds) == 0 <==> GroupValue(ds[..4]) == 0 && Value(ds[4..]) == 0
    ensures GroupValue(ds[..4]) == 0 ==> Value(ds) == Value(ds[4..])
  {
    hide GroupValue;
    TimesGrows(GroupValue(ds[..4]), Pow10000(|ds| / 4 - 1));
  }

  lemma {:induction false} ZeroPrintsNothing(n: Notation, ds: Digits)
    requires |ds| % 4 == 0 && |ds| <= 20
    ensures Value(ds) == 0 <==> Printed(n, ds) == []
    ensures Value(ds) == 0 ==> AllReadable(n, ds)
  {
    hide GroupValue, BigRank, Value;
    if ds == [] {
      EmptyValue();
    } else {
      ZeroValue(ds);
      ZeroPrintsNothing(n, ds[4..]);
      if GroupValue(ds[..4]) > 0 {
        NonEmptyGroup(n, ds[..4]);
      } else {
        ZeroGroupReadable(n, ds[..4]);
      }
    }
  }

  lemma EmptyValue()
    ensures Value([]) == 0
  {}

  lemma NonEmptyGroup(n: Notation, g: Digits)
    requires |g| == 4 && GroupValue(g) > 0
    ensures n.Group(g) != []
  {
    hide Positional, SkipZeros;
    if n.Mixed? {
      SkipZerosKeepsValue(g);
      PositionalOfGroup(g);
    } else if g[0] != 0 {
      assert |n.Group(g)| >= 1;
    } else if g[1] != 0 {
      assert |n.Group(g)| >= 1;
    } else {
      assert g[2] != 0 || g[3] != 0;
    }
  }

  /** The last group of a text, and a group followed by its big rank. */
  lemma LastGroup(n: Notation, g: Digits, lastBase: U64)
    requires |g| == 4 && GroupValue(g) > 0
    ensures Groups(n.Group(g), lastBase) == if n.Readable(g) then Some([Group(GroupValue(g), 1)]) else None
  {
    hide GroupValue, ReduceGroup;
    GroupRead(n, g, []);
    assert n.Group(g) + [] == n.Group(g);
  }

  lemma GroupThenRest(n: Notation, g: Digits, base: U64, rest: Tokens, lastBase: U64)
    requires |g| == 4 && GroupValue(g) > 0 && 10000 <= base < lastBase
    ensures Groups(n.Group(g) + ([base] + rest), lastBase) ==
            if !n.Readable(g) then None
            else if rest == [] then Some([Group(GroupValue(g), base)])
            else
              match Groups(rest, base)
              case None => None
              case Some(gs) => Some([Group(GroupValue(g), base)] + gs)
  {
    hide GroupValue, ReduceGroup;
    GroupRead(n, g, [base] + rest);
    assert ([base] + rest)[1..] == rest;
  }

  lemma OneGroup(gs: seq<Group>, coef: nat, base: nat)
    ensures Sum([Group(coef, base)] + gs) == coef * base + Sum(gs) && Sum([Group(coef, base)]) == coef * base
  {
    assert ([Group(coef, base)] + gs)[1..] == gs;
  }

  /** The groups of a printed number are its own groups; one unreadable group spoils the whole. */
  lemma {:induction false} PrintedGroups(n: Notation, ds: Digits, lastBase: U64)
    requires |ds| % 4 == 0 && |ds| <= 20 && Value(ds) > 0
    requires Pow10000(|ds| / 4 - 1) < lastBase
    ensures var gs := Groups(Printed(n, ds), lastBase);
            && (gs.Some? <==> AllReadable(n, ds))
            && (gs.Some? ==> Sum(gs.value) == Value(ds))
  {
    hide GroupValue, Groups, Sum;
    var g, rest := ds[..4], ds[4..];
    var rank := |ds| / 4 - 1;
    if GroupValue(g) == 0 {
      ZeroGroupReadable(n, g);
      ZeroValue(ds);
      assert Pow10000(rank) == 10000 * Pow10000(rank - 1);
      PrintedGroups(n, rest, lastBase);
    } else if rank == 0 {
      assert rest == [] && n.Group(g) + (BigRank(0) + []) == n.Group(g);
      LastGroup(n, g, lastBase);
      OneGroup([], GroupValue(g), 1);
    } else {
      var base := Pow10000(rank);
      RankFits(rank);
      GroupThenRest(n, g, base, Printed(n, rest), lastBase);
      ZeroPrintsNothing(n, rest);
      OneGroup([], GroupValue(g), base);
      if Value(rest) > 0 {
        PrintedGroups(n, rest, base);
        if Groups(Printed(n, rest), base).Some? {
          OneGroup(Groups(Printed(n, rest), base).value, GroupValue(g), base);
        }
      }
    }
  }

  lemma ZeroGroupReadable(n: Notation, g: Digits)
    requires |g| == 4 && GroupValue(g) == 0
    ensures n.Readable(g)
  {}

  predicate AllDigits(s: Tokens) {
    forall i | 0 <= i < |s| :: s[i] < 10
  }

  lemma {:induction false} RunIsAll(s: Tokens)
    ensures Run(s) == s <==> AllDigits(s)
  {
    if s != [] && s[0] < 10 {
      RunIsAll(s[1..]);
      assert s == [s[0]] + s[1..];
    }
  }

  lemma AllDigitsParts(a: Tokens, b: Tokens)
    ensures AllDigits(a + b) <==> AllDigits(a) && AllDigits(b)
  {
    assert AllDigits(a + b) ==> AllDigits(a) && AllDigits(b) by {
      assert forall i | 0 <= i < |a| :: (a + b)[i] == a[i];
      assert forall i | 0 <= i < |b| :: (a + b)[|a| + i] == b[i];
    }
  }

  /** An unreadable group contains the character for 100 or for 10. */
  lemma UnreadableHasRank(n: Notation, g: Digits)
    requires |g| == 4 && !n.Readable(g)
    ensures !AllDigits(n.Group(g))
  {
    var a, b, d := OldPart(g[0], 1000), OldPart(g[1], 100), OnesPart(g[3]);
    var c := if n.Old? then OldPart(g[2], 10) else TwentyPart(g[2]);
    AllDigitsParts(a, b + (c + d));
    AllDigitsParts(b, c + d);
    AllDigitsParts(c, d);
    if g[1] == 1 {
      assert b[1] == 100;
    } else {
      assert c[1] == 10;
    }
  }

  /** A text without ranks is one readable group. */
  lemma {:induction false} PlainDigits(n: Notation, ds: Digits)
    requires |ds| % 4 == 0 && |ds| <= 20 && AllDigits(Printed(n, ds))
    ensures AllReadable(n, ds) && Value(ds) < 10000
  {
    hide GroupValue, AllDigits;
    if ds != [] {
      var g, rest := ds[..4], ds[4..];
      if GroupValue(g) == 0 {
        ZeroGroupReadable(n, g);
        PlainDigits(n, rest);
      } else {
        AllDigitsParts(n.Group(g), BigRank(|ds| / 4 - 1) + Printed(n, rest));
        AllDigitsParts(BigRank(|ds| / 4 - 1), Printed(n, rest));
        RankIsNoDigit(|ds| / 4 - 1);
        if !n.Readable(g) {
          UnreadableHasRank(n, g);
        }
        assert rest == [];
      }
    }
  }

  lemma RankIsNoDigit(rank: nat)
    requires rank < 5
    ensures AllDigits(BigRank(rank)) ==> rank == 0
  {
    if rank != 0 {
      RankFits(rank);
      assert BigRank(rank)[0] >= 10000;
    }
  }

  /**
   Reading back what was printed: refused exactly when a group is unreadable or the number
   does not fit in 64 bits, and otherwise the number itself.
   */
  lemma ReadPrinted(n: Notation, ds: Digits)
    requires |ds| % 4 == 0 && |ds| <= 20 && Value(ds) > 0
    ensures var r := ReadNumber(Printed(n, ds));
            && (r.0 <==> AllReadable(n, ds) && Value(ds) <= MAX_U64)
            && (r.0 ==> r.1 == Value(ds))
  {
    hide Printed, Groups, Interpret, Value, ReduceBase10, Run, Meaning, Overrun;
    var s := Printed(n, ds);
    ZeroPrintsNothing(n, ds);
    assert ds != [] by { EmptyValue(); }
    RankFits(|ds| / 4 - 1);
    PrintedGroups(n, ds, MAX_U64);
    InterpretExact(s, MAX_U64, 0);
    if Run(s) == s {
      RunIsAll(s);
      PlainDigits(n, ds);
      InterpretMeaning(s, MAX_U64, 0);
      RunMeaning(s, 0, 0, 0);
      NothingMeans(0, 0);
      DigitsMean(Positional(s, 0));
      ReduceBase10Exact(s, 0);
      assert s[|s|..] == [];
    }
  }

  lemma DigitsMean(pending: nat)
    ensures Meaning([], pending, 0, 0) == pending
  {}
}
