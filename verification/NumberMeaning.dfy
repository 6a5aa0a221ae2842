/**
 What a list of tokens means, read from left to right by the rules of the notation alone,
 and exactly when NormalizeNumbersHelper returns that meaning.
 */
module NumberMeaning {
  import opened CheckedArithmetic
  import opened NumberReader

  /**
   Digits are positional and wait as `pending`; 10, 20, 100 and 1000 multiply what waits, or
   stand for themselves; a big base multiplies its group and closes it.
   */
  function Meaning(s: Tokens, pending: nat, group: nat, total: nat): nat {
    if s == [] then total + group + pending
    else if s[0] < 10 then Meaning(s[1..], pending * 10 + s[0], group, total)
    else if s[0] < 10000 then Meaning(s[1..], 0, group + (if pending == 0 then 1 else pending) * s[0], total)
    else Meaning(s[1..], 0, 0, total + (group + pending) * s[0])
  }

  /** `s` starts with a 100 or 1000 followed by digits that do not fit below it or do not end the group. */
  predicate OverrunAt(s: Tokens) {
    && s != [] && (s[0] == 100 || s[0] == 1000)
    && var digits := SkipZeros(s[1..]);
    && StartsRun(digits)
    && (Positional(Run(digits), 0) >= s[0] || !GroupOver(digits[|Run(digits)|..]))
  }

  predicate Overrun(s: Tokens) {
    s != [] && (OverrunAt(s) || Overrun(s[1..]))
  }

  /** ReduceDigitsHelper forces the iterator to the end. */
  predicate GivesUpAt(s: Tokens, base: U64)
    requires IsBase(base)
  {
    var digits := SkipZeros(s);
    StartsRun(digits) && GivesUp(digits, base)
  }

  lemma GivesUpIff(digits: Tokens, base: U64)
    requires IsBase(base)
    ensures GivesUp(digits, base)
       <==> Positional(Run(digits), 0) >= base * 10 || !GroupOver(digits[|Run(digits)|..])
  {
    hide ReduceBase10;
    ReduceBase10Exact(digits, 0);
  }

  lemma TimesGrows(a: nat, b: nat)
    requires 1 <= b
    ensures a <= a * b
  {}

  lemma {:induction false} MeaningGrows(s: Tokens, pending: nat, group: nat, total: nat)
    ensures total + group + pending <= Meaning(s, pending, group, total)
  {
    if s != [] {
      if s[0] < 10 {
        MeaningGrows(s[1..], pending * 10 + s[0], group, total);
      } else if s[0] < 10000 {
        var factor := if pending == 0 then 1 else pending;
        TimesGrows(factor, s[0]);
        MeaningGrows(s[1..], 0, group + factor * s[0], total);
      } else {
        TimesGrows(group + pending, s[0]);
        MeaningGrows(s[1..], 0, 0, total + (group + pending) * s[0]);
      }
    }
  }

  lemma {:induction false} SkipZerosNeutral(s: Tokens, group: nat, total: nat)
    ensures Meaning(s, 0, group, total) == Meaning(SkipZeros(s), 0, group, total)
    ensures Overrun(s) == Overrun(SkipZeros(s))
  {
    if s != [] && s[0] == 0 {
      SkipZerosNeutral(s[1..], group, total);
    }
  }

  lemma {:induction false} RunMeaning(s: Tokens, pending: nat, group: nat, total: nat)
    ensures Meaning(s, pending, group, total)
         == Meaning(s[|Run(s)|..], Positional(Run(s), pending), group, total)
    ensures Overrun(s) == Overrun(s[|Run(s)|..])
  {
    if s != [] && s[0] < 10 {
      var run := Run(s[1..]);
      assert ([s[0]] + run)[1..] == run;
      assert s[1..][|run|..] == s[|Run(s)|..];
      RunMeaning(s[1..], pending * 10 + s[0], group, total);
    }
  }

  /** At the end of a group it does not matter whether a digit still waits. */
  lemma PendingAtEnd(s: Tokens, pending: nat, group: nat, total: nat)
    requires GroupOver(s)
    ensures Meaning(s, pending, group, total) == Meaning(s, 0, group + pending, total)
  {}

  lemma RunCase(z: Tokens, base: U64, group: nat, total: nat)
    requires IsBase(base) && StartsRun(z) && !GivesUp(z, base)
    ensures var r := ReduceBase10(z, 0);
            && r.ok && GroupOver(r.rest)
            && Meaning(z, 0, group, total) == Meaning(r.rest, 0, group + r.num, total)
            && Overrun(z) == Overrun(r.rest)
  {
    hide ReduceBase10, Overrun, Meaning, Positional;
    ReduceBase10Exact(z, 0);
    RunMeaning(z, 0, group, total);
    PendingAtEnd(z[|Run(z)|..], Positional(Run(z), 0), group, total);
  }

  lemma PairCase(z: Tokens, group: nat, total: nat)
    requires |z| >= 2 && 1 <= z[0] < 10 && 10 <= z[1] < 10000
    ensures Meaning(z, 0, group, total) == Meaning(z[2..], 0, group + z[0] * z[1], total)
    ensures Overrun(z) == Overrun(z[1..])
  {
    hide OverrunAt;
    assert z[1..][1..] == z[2..] && z[1..][0] == z[1];
    assert !OverrunAt(z) by { DigitNeverOverruns(z); }
  }

  lemma DigitNeverOverruns(z: Tokens)
    requires z != [] && z[0] < 10
    ensures !OverrunAt(z)
  {
    hide SkipZeros, Run, Positional;
  }

  /** Unless it gives up, ReduceDigitsHelper moves the value it reads from the tokens to the group. */
  lemma DigitsMeaning(s: Tokens, base: U64, group: nat, total: nat)
    requires IsBase(base) && !GivesUpAt(s, base)
    ensures var r := ReduceDigits(s, base);
            && Meaning(s, 0, group, total) == Meaning(r.rest, 0, group + Counted(r), total)
            && (Overrun(s) <==> Overrun(r.rest) || (r.ok && base >= 100 && GivesUpAt(r.rest, base / 10)))
  {
    hide ReduceBase10, SkipZeros, Overrun, OverrunAt, Meaning;
    var z := SkipZeros(s);
    var r := ReduceDigits(s, base);
    SkipZerosNeutral(s, group, total);
    if StartsRun(z) {
      RunCase(z, base, group, total);
      NoRunAtEnd(r.rest);
    } else if r.ok && z[0] < 10 {
      assert z[1..][1..] == z[2..];
      PairCase(z, group, total);
      BaseOverrun(z[1..], base);
    } else if r.ok {
      BaseMeaning(z, group, total);
      BaseOverrun(z, base);
    }
  }

  lemma BaseMeaning(z: Tokens, group: nat, total: nat)
    requires z != [] && 10 <= z[0] < 10000
    ensures Meaning(z, 0, group, total) == Meaning(z[1..], 0, group + z[0], total)
  {}

  lemma NoRunAtEnd(s: Tokens)
    requires GroupOver(s)
    ensures !StartsRun(SkipZeros(s))
  {}

  /** A 100 or 1000 overruns exactly when the next reducer gives up. */
  lemma BaseOverrun(s: Tokens, base: U64)
    requires IsBase(base) && s != [] && (s[0] == base || (base == 10 && s[0] == 20))
    ensures Overrun(s) <==> Overrun(s[1..]) || (base >= 100 && GivesUpAt(s[1..], base / 10))
  {
    hide ReduceBase10, SkipZeros;
    if base >= 100 {
      GivesUpIff(SkipZeros(s[1..]), base / 10);
    }
  }

  /** The hundreds or the tens reducer of the first group gives up. */
  predicate GroupLoses(s: Tokens) {
    var k := ReduceDigits(s, 1000);
    var h := ReduceDigits(k.rest, 100);
    GivesUpAt(k.rest, 100) || GivesUpAt(h.rest, 10)
  }

  /** A reducer that neither succeeded nor gave up has only skipped zeros, and seen no run of digits. */
  lemma FailureSkipsZeros(s: Tokens, base: U64)
    requires IsBase(base) && !GivesUpAt(s, base) && !ReduceDigits(s, base).ok
    ensures ReduceDigits(s, base).rest == SkipZeros(s) && !StartsRun(SkipZeros(s))
  {
    hide ReduceBase10, SkipZeros;
  }

  lemma FailureSawNoRun(s: Tokens, base: U64, next: U64)
    requires IsBase(base) && IsBase(next) && !GivesUpAt(s, base) && !ReduceDigits(s, base).ok
    ensures !GivesUpAt(ReduceDigits(s, base).rest, next)
  {
    hide ReduceDigits, SkipZeros, GivesUp;
    FailureSkipsZeros(s, base);
    SkipZerosTwice(s);
  }

  lemma {:induction false} SkipZerosTwice(s: Tokens)
    ensures SkipZeros(SkipZeros(s)) == SkipZeros(s)
  {
    if s != [] && s[0] == 0 {
      SkipZerosTwice(s[1..]);
    }
  }

  lemma GivingUpEndsGroup(s: Tokens, base: U64)
    requires IsBase(base) && GivesUpAt(s, base)
    ensures ReduceDigits(s, base) == Reduced(false, [], 0)
  {
    hide ReduceBase10;
  }

  /** Digits that are dropped would have counted. */
  lemma DroppedDigitsCount(s: Tokens, base: U64, group: nat, total: nat)
    requires IsBase(base) && GivesUpAt(s, base)
    ensures Meaning(s, 0, group, total) > total + group
  {
    hide ReduceBase10;
    var z := SkipZeros(s);
    SkipZerosNeutral(s, group, total);
    MeaningGrows(z[1..], z[0], group, total);
  }

  lemma OnesMeaning(s: Tokens, group: nat, total: nat)
    requires GroupOver(ReduceOnes(s).rest)
    ensures var r := ReduceOnes(s);
            Meaning(s, 0, group, total) == Meaning(r.rest, 0, group + Counted(r), total) && Overrun(s) == Overrun(r.rest)
  {
    hide SkipZeros;
    if ReduceOnes(s).ok {
      PendingAtEnd(s[1..], s[0], group, total);
    }
  }

  /** A well-read group either moves its whole value out of the tokens, or has dropped the rest of the text. */
  lemma GroupMeaning(s: Tokens, total: nat)
    requires ReduceGroup(s).ok
    ensures var r := ReduceGroup(s);
            if GroupLoses(s) then r.rest == [] && Overrun(s) && Meaning(s, 0, 0, total) > total + r.num
            else Meaning(s, 0, 0, total) == Meaning(r.rest, 0, r.num, total) && Overrun(s) == Overrun(r.rest)
  {
    hide ReduceDigits, ReduceOnes, GivesUpAt, Meaning, Overrun;
    var k := ReduceDigits(s, 1000);
    var h := ReduceDigits(k.rest, 100);
    var t := ReduceDigits(h.rest, 10);
    if GivesUpAt(s, 1000) {
      GivingUpEndsGroup(s, 1000);
      NothingLeft([], 100);
      NothingLeft([], 10);
      assert false;
    }
    DigitsMeaning(s, 1000, 0, total);
    if GivesUpAt(k.rest, 100) {
      LostAtHundreds(s, total);
    } else {
      DigitsMeaning(k.rest, 100, Counted(k), total);
      if GivesUpAt(h.rest, 10) {
        LostAtTens(s, total);
      } else {
        DigitsMeaning(h.rest, 10, Counted(k) + Counted(h), total);
        OnesMeaning(t.rest, Counted(k) + Counted(h) + Counted(t), total);
      }
    }
  }

  lemma LostAtHundreds(s: Tokens, total: nat)
    requires !GivesUpAt(s, 1000) && GivesUpAt(ReduceDigits(s, 1000).rest, 100)
    ensures var r := ReduceGroup(s); r.rest == [] && Overrun(s) && Meaning(s, 0, 0, total) > total + r.num
  {
    hide ReduceDigits, GivesUpAt, Meaning, Overrun;
    var k := ReduceDigits(s, 1000);
    if !k.ok {
      FailureSawNoRun(s, 1000, 100);
    }
    DigitsMeaning(s, 1000, 0, total);
    GivingUpEndsGroup(k.rest, 100);
    NothingLeft([], 10);
    DroppedDigitsCount(k.rest, 100, k.num, total);
  }

  lemma LostAtTens(s: Tokens, total: nat)
    requires !GivesUpAt(s, 1000)
    requires var k := ReduceDigits(s, 1000); !GivesUpAt(k.rest, 100) && GivesUpAt(ReduceDigits(k.rest, 100).rest, 10)
    ensures var r := ReduceGroup(s); r.rest == [] && Overrun(s) && Meaning(s, 0, 0, total) > total + r.num
  {
    hide ReduceDigits, GivesUpAt, Meaning, Overrun;
    var k := ReduceDigits(s, 1000);
    var h := ReduceDigits(k.rest, 100);
    if !h.ok {
      FailureSawNoRun(k.rest, 100, 10);
    }
    DigitsMeaning(s, 1000, 0, total);
    DigitsMeaning(k.rest, 100, Counted(k), total);
    GivingUpEndsGroup(h.rest, 10);
    NothingLeft([], 10);
    DroppedDigitsCount(h.rest, 10, Counted(k) + Counted(h), total);
  }

  lemma BigBaseMeaning(s: Tokens, group: nat, total: nat)
    requires s != [] && s[0] >= 10000
    ensures Meaning(s, 0, group, total) == Meaning(s[1..], 0, 0, total + group * s[0])
    ensures Overrun(s) == Overrun(s[1..])
  {}

  /** One round of the loop that accepted. */
  lemma InterpretStep(s: Tokens, lastBase: U64, total: U64)
    requires Interpret(s, lastBase, total).0
    ensures var r := ReduceGroup(s); var v := Interpret(s, lastBase, total).1;
            && r.ok && GroupOver(r.rest)
            && (r.rest == [] ==> v == total + r.num)
            && (r.rest != [] ==>
                  var next := total + r.num * r.rest[0];
                  && next <= MAX_U64
                  && (r.rest[1..] == [] ==> v == next)
                  && (r.rest[1..] != [] ==> Interpret(s, lastBase, total) == Interpret(r.rest[1..], r.rest[0], next)))
  {
    hide ReduceGroup, MultiplyAndCheckOverflow, AddAndCheckOverflow;
    GroupShape(s);
  }

  /** Reading in the Japanese way returns the meaning exactly when nothing overruns, and less otherwise. */
  lemma {:induction false} InterpretMeaning(s: Tokens, lastBase: U64, total: U64)
    requires Interpret(s, lastBase, total).0
    ensures var v := Interpret(s, lastBase, total).1; var m := Meaning(s, 0, 0, total);
            v <= m && (v == m <==> !Overrun(s))
    decreases |s|
  {
    hide ReduceGroup, GroupLoses, Interpret, Meaning, Overrun;
    var r := ReduceGroup(s);
    InterpretStep(s, lastBase, total);
    GroupMeaning(s, total);
    NothingMeans(r.num, total);
    NothingMeans(0, total + r.num * (if r.rest == [] then 0 else r.rest[0]));
    if r.rest != [] {
      BigBaseMeaning(r.rest, r.num, total);
      if r.rest[1..] != [] {
        InterpretMeaning(r.rest[1..], r.rest[0], total + r.num * r.rest[0]);
      }
    }
  }

  lemma NothingMeans(group: nat, total: nat)
    ensures Meaning([], 0, group, total) == total + group && !Overrun([])
  {}

  /** An accepted text is read as what it means exactly when no 100 or 1000 in it is overrun by digits. */
  lemma ReadNumberMeans(s: Tokens)
    requires ReadNumber(s).0
    ensures var v := ReadNumber(s).1; var m := Meaning(s, 0, 0, 0);
            v <= m && (v == m <==> !Overrun(s))
  {
    hide Interpret, ReduceBase10, Overrun;
    if Run(s) == s {
      ReduceBase10Exact(s, 0);
      RunMeaning(s, 0, 0, 0);
      assert s[|s|..] == [];
      NothingMeans(0, 0);
    } else {
      InterpretMeaning(s, MAX_U64, 0);
    }
  }

  /** Pure kanji notation, with no two digits side by side, is never misread. */
  lemma {:induction false} NoNeighboursNoOverrun(s: Tokens)
    requires forall i | 0 <= i < |s| - 1 :: s[i] >= 10 || s[i + 1] >= 10
    ensures !Overrun(s)
  {
    if s != [] {
      NoNeighboursNoOverrun(s[1..]);
      var digits := SkipZeros(s[1..]);
      var i := |s| - |digits|;
      assert |digits| >= 2 ==> s[i] == digits[0] && s[i + 1] == digits[1];
    }
  }

  lemma ExampleRun()
    ensures var d := [3, 4, 5, 6];
            && ReduceBase10(d, 0) == Reduced(true, [], 3456) && Run(d) == d && Positional(d, 0) == 3456
            && Meaning(d, 0, 2000, 0) == 5456
  {
    var d := [3, 4, 5, 6];
    assert d[1..] == [4, 5, 6] && d[1..][1..] == [5, 6] && d[1..][1..][1..] == [6] && d[1..][1..][1..][1..] == [];
    assert ReduceBase10([6], 345) == Reduced(true, [], 3456);
    assert ReduceBase10([5, 6], 34) == Reduced(true, [], 3456);
    assert Run([5, 6]) == [5, 6] && Positional([5, 6], 34) == 3456;
    assert Meaning([5, 6], 34, 2000, 0) == 5456;
  }

  lemma ExampleThousands()
    ensures ReduceDigits([2, 1000, 3, 4, 5, 6], 1000) == Reduced(true, [3, 4, 5, 6], 2000)
  {
    hide ReduceBase10, GivesUp;
    assert [2, 1000, 3, 4, 5, 6][2..] == [3, 4, 5, 6];
  }

  lemma ExampleHundreds()
    ensures ReduceDigits([3, 4, 5, 6], 100) == Reduced(false, [], 0)
  {
    hide ReduceBase10, Positional, Meaning;
    ExampleRun();
  }

  lemma ExampleGroup()
    ensures ReduceGroup([2, 1000, 3, 4, 5, 6]) == Reduced(true, [], 2000)
  {
    hide ReduceDigits;
    ExampleThousands();
    ExampleHundreds();
    NothingLeft([], 10);
  }

  lemma ExampleMeaning()
    ensures var s := [2, 1000, 3, 4, 5, 6]; Overrun(s) && Meaning(s, 0, 0, 0) == 5456
  {
    hide ReduceBase10, Positional, Overrun, OverrunAt;
    var s, d := [2, 1000, 3, 4, 5, 6], [3, 4, 5, 6];
    ExampleRun();
    assert s[2..] == d && s[1..] == [1000] + d && s[1..][1..] == d;
    PairCase(s, 0, 0);
    BaseOverrun(s[1..], 1000);
  }

  /** A text that is accepted and read as less than it says: 2 1000 3 4 5 6 gives 2000. */
  lemma OverrunExample()
    ensures var s := [2, 1000, 3, 4, 5, 6]; ReadNumber(s) == (true, 2000) && Overrun(s) && Meaning(s, 0, 0, 0) == 5456
  {
    hide ReduceGroup, ReduceBase10, Overrun, Meaning;
    ExampleGroup();
    ExampleMeaning();
    assert Run([2, 1000, 3, 4, 5, 6]) == [2];
  }
}
