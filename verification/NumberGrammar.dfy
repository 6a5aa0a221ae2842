/**
 Which lists of tokens NormalizeNumbersHelper accepts: a grammar that knows nothing of the reducers,
 and the proof that they read exactly its lists, each as what it means.
 */
module NumberGrammar {
  import opened CheckedArithmetic
  import opened NumberMeaning
  import opened NumberReader
  import opened Options

  // ---------------------------------------------------------------------------
  // The grammar
  // ---------------------------------------------------------------------------

  predicate IsRank(r: U64) {
    r == 10 || r == 100 || r == 1000
  }

  /**
   The rank of the part that leads `s`, or 0: a part is 10, 100 or 1000 alone, 20, or a digit before
   10, 100 or 1000, where a 1 is written before 1000 only.
   */
  function PartRank(s: Tokens): U64 {
    if s == [] then 0
    else if IsRank(s[0]) then s[0]
    else if s[0] == 20 then 10
    else if 1 <= s[0] < 10 && |s| >= 2 && IsRank(s[1]) && (s[0] == 1 ==> s[1] == 1000) then s[1]
    else 0
  }

  function PartLength(s: Tokens): (n: nat)
    requires PartRank(s) != 0
    ensures 1 <= n <= |s|
  {
    if s[0] < 10 then 2 else 1
  }

  /**
   A group goes on with `s` after a part of rank `limit` (10000 when it has no part yet): further
   parts of falling ranks, then a number below the last rank or nothing, then the end of the text or
   a big base. Zeros may stand before a part and before the number, but not behind tens.
   */
  predicate GroupGoesOn(s: Tokens, limit: U64, lastBase: U64)
    decreases |s|, 1
  {
    var z := if limit == 10 then s else SkipZeros(s);
    if z == [] then limit < 10000
    else if z[0] >= 10000 then limit < 10000 && GroupEnds(z, lastBase)
    else if 0 < PartRank(z) < limit then GroupGoesOn(z[PartLength(z)..], PartRank(z), lastBase)
    else
      && z[0] < 10
      && Positional(Run(z), 0) < limit && (limit == 10 ==> |Run(z)| == 1)
      && GroupEnds(z[|Run(z)|..], lastBase)
  }

  /** The end of the text, or a big base below the last one and then the end or another group. */
  predicate GroupEnds(s: Tokens, lastBase: U64)
    decreases |s|, 0
  {
    s == [] || (10000 <= s[0] < lastBase && (s[1..] == [] || GroupGoesOn(s[1..], 10000, s[0])))
  }

  /** Digits alone, or groups with falling big bases. */
  predicate Grammatical(s: Tokens) {
    s != [] && ((forall i | 0 <= i < |s| :: s[i] < 10) || GroupGoesOn(s, 10000, MAX_U64))
  }

  /** A text up to the first 100 or 1000 that is overrun by digits: the rest of it is not looked at. */
  function Kept(s: Tokens): (p: Tokens)
    ensures |p| <= |s| && p == s[..|p|]
  {
    if s == [] then [] else if OverrunAt(s) then [s[0]] else [s[0]] + Kept(s[1..])
  }

  // ---------------------------------------------------------------------------
  // The reducers follow the grammar
  // ---------------------------------------------------------------------------

  /** A part of rank `base` is taken, or a run of digits, or nothing. */
  predicate Takes(r: Reduced, z: Tokens, base: U64)
    requires IsBase(base)
  {
    if PartRank(z) == base then
      r.ok && r.rest == z[PartLength(z)..] && r.num == if z[0] < 10 then z[0] * base else z[0]
    else if StartsRun(z) then
      if GivesUp(z, base) then r == Reduced(false, [], 0)
      else
        && r.ok && r.rest == z[|Run(z)|..] && GroupOver(r.rest)
        && r.num == Positional(Run(z), 0) < base * 10
    else r == Reduced(false, z, 0)
  }

  /** ReduceDigitsHelper skips zeros and takes a part of its rank, or a run of digits, or nothing. */
  lemma ReducerTakes(s: Tokens, base: U64)
    requires IsBase(base)
    ensures Takes(ReduceDigits(s, base), SkipZeros(s), base)
  {
    hide ReduceBase10, SkipZeros;
    var z := SkipZeros(s);
    if StartsRun(z) {
      ReduceBase10Exact(z, 0);
    }
  }

  function Below(base: U64): U64
    requires IsBase(base)
  {
    if base == 1000 then 100 else if base == 100 then 10 else 1
  }

  /** What the reducers from `base` on make of `s`: whether one of them, or one before, succeeds, and what is left. */
  function Later(s: Tokens, base: U64, some: bool): (bool, Tokens)
    requires IsBase(base) || base == 1
    decreases base
  {
    if base == 1 then (some || ReduceOnes(s).ok, ReduceOnes(s).rest)
    else
      var r := ReduceDigits(s, base);
      Later(r.rest, Below(base), some || r.ok)
  }

  lemma GroupIsLater(s: Tokens)
    ensures var (ok, rest) := Later(s, 1000, false);
            ReduceGroup(s).rest == rest && (ReduceGroup(s).ok <==> ok && GroupOver(rest))
  {
    hide ReduceDigits, ReduceOnes;
    var k := ReduceDigits(s, 1000);
    var h := ReduceDigits(k.rest, 100);
    var t := ReduceDigits(h.rest, 10);
    assert Later(t.rest, 1, k.ok || h.ok || t.ok).1 == ReduceOnes(t.rest).rest;
    assert Later(h.rest, 10, k.ok || h.ok) == Later(t.rest, 1, k.ok || h.ok || t.ok);
    assert Later(k.rest, 100, k.ok) == Later(h.rest, 10, k.ok || h.ok);
  }

  /** `base` reads next: right below the last rank, or with what the reducers between have left. */
  predicate Stage(s: Tokens, base: U64, limit: U64) {
    && (IsBase(base) || base == 1) && (IsBase(limit) || limit == 10000)
    && (limit == 10 * base
        || (limit > 10 * base && SkipZeros(s) == s && !StartsRun(s) && !(10 * base <= PartRank(s) < limit)))
  }

  /** The zeros that may be skipped. */
  function Trimmed(s: Tokens, limit: U64): Tokens {
    if limit == 10 then s else SkipZeros(s)
  }

  lemma GoesOnAtEnd(s: Tokens, limit: U64, lastBase: U64)
    requires GroupOver(Trimmed(s, limit))
    ensures GroupGoesOn(s, limit, lastBase) <==> limit < 10000 && GroupEnds(Trimmed(s, limit), lastBase)
  {
    hide SkipZeros, PartRank, Run, Positional;
    EndIsEnd(lastBase);
    hide GroupEnds;
  }

  lemma EndIsEnd(lastBase: U64)
    ensures GroupEnds([], lastBase)
  {}

  lemma GoesOnWithPart(s: Tokens, limit: U64, lastBase: U64)
    requires 0 < PartRank(Trimmed(s, limit)) < limit <= 10000
    ensures var z := Trimmed(s, limit);
            GroupGoesOn(s, limit, lastBase) <==> GroupGoesOn(z[PartLength(z)..], PartRank(z), lastBase)
  {
    PartIsSmall(Trimmed(s, limit));
    hide SkipZeros, PartRank, Run, Positional, GroupEnds, IsRank;
  }

  lemma PartIsSmall(z: Tokens)
    requires PartRank(z) != 0
    ensures z != [] && z[0] < 10000 && IsRank(PartRank(z))
  {}

  lemma GoesOnWithNumber(s: Tokens, limit: U64, lastBase: U64)
    requires var z := Trimmed(s, limit); !GroupOver(z) && !(0 < PartRank(z) < limit)
    ensures var z := Trimmed(s, limit);
            GroupGoesOn(s, limit, lastBase)
            <==> z[0] < 10 && Positional(Run(z), 0) < limit && (limit == 10 ==> |Run(z)| == 1)
                 && GroupEnds(z[|Run(z)|..], lastBase)
  {
    hide SkipZeros, PartRank, Run, Positional, GroupEnds, IsRank;
  }

  /** A group ends at its end only. */
  lemma EndsOnlyOver(s: Tokens, lastBase: U64)
    ensures GroupEnds(s, lastBase) ==> GroupOver(s)
  {}

  lemma OnesStage(s: Tokens, limit: U64, lastBase: U64)
    requires Stage(s, 1, limit)
    ensures var (ok, rest) := Later(s, 1, limit < 10000);
            ok && GroupEnds(rest, lastBase) <==> GroupGoesOn(s, limit, lastBase)
  {
    assert Trimmed(s, limit) == s && Later(s, 1, limit < 10000) == (limit < 10000 || ReduceOnes(s).ok, ReduceOnes(s).rest);
    EndsOnlyOver(s, lastBase);
    if GroupOver(s) {
      GoesOnAtEnd(s, limit, lastBase);
    } else {
      assert !(0 < PartRank(s) < limit);
      GoesOnWithNumber(s, limit, lastBase);
      hide GroupGoesOn, GroupEnds, Later, SkipZeros, PartRank, IsRank;
      if s[0] < 10 {
        OneDigitRun(s);
        hide Run, Positional;
        EndsOnlyOver(s[1..], lastBase);
      }
    }
  }

  lemma OneDigitRun(s: Tokens)
    requires s != [] && s[0] < 10
    ensures !StartsRun(s) ==> Run(s) == [s[0]] && Positional(Run(s), 0) == s[0] && s[|Run(s)|..] == s[1..]
    ensures StartsRun(s) ==> |Run(s)| >= 2 && s[1] < 10
  {
    if StartsRun(s) {
      assert Run(s) == [s[0]] + Run(s[1..]) && Run(s[1..]) == [s[1]] + Run(s[1..][1..]);
    } else {
      assert Run(s) == [s[0]] + Run(s[1..]) && Run(s[1..]) == [];
      assert Positional([s[0]], 0) == Positional([], s[0]);
    }
  }

  lemma OnesLeavesIt(s: Tokens)
    requires GroupOver(s)
    ensures ReduceOnes(s).rest == s
  {}

  /** At the end of a group the reducers that are left do nothing. */
  lemma LaterAtEnd(s: Tokens, base: U64, some: bool)
    requires (IsBase(base) || base == 1) && GroupOver(s)
    ensures Later(s, base, some) == (some, s)
    decreases base
  {
    hide ReduceDigits, ReduceOnes;
    if base == 1 {
      NothingLeft(s, 10);
      assert ReduceOnes(s).rest == s by { OnesLeavesIt(s); }
    } else {
      NothingLeft(s, base);
      LaterAtEnd(s, Below(base), some);
    }
  }

  /** No digits overrun the rank that was read last. */
  predicate Clear(s: Tokens, base: U64, limit: U64) {
    IsBase(base) && limit == 10 * base && limit < 10000 ==> !GivesUpAt(s, base)
  }

  /** From any stage on, and with nothing overrun, the reducers accept what the grammar does. */
  lemma StageIff(s: Tokens, base: U64, limit: U64, lastBase: U64)
    requires Stage(s, base, limit) && Clear(s, base, limit) && !Overrun(s)
    ensures var (ok, rest) := Later(s, base, limit < 10000);
            ok && GroupEnds(rest, lastBase) <==> GroupGoesOn(s, limit, lastBase)
    decreases base, 1
  {
    if base == 1 {
      OnesStage(s, limit, lastBase);
    } else {
      hide ReduceDigits, Later, GroupGoesOn, GroupEnds, Overrun, Clear;
      SkipZerosNeutral(s, 0, 0);
      SkipZerosTwice(s);
      ReducerTakes(s, base);
      StageFrom(s, SkipZeros(s), base, limit, lastBase);
    }
  }

  /** `z` is `s` without its leading zeros. */
  predicate ZerosOff(s: Tokens, z: Tokens) {
    z == SkipZeros(s) && SkipZeros(z) == z
  }

  lemma StageFrom(s: Tokens, z: Tokens, base: U64, limit: U64, lastBase: U64)
    requires Stage(s, base, limit) && Clear(s, base, limit) && IsBase(base) && ZerosOff(s, z) && !Overrun(z)
    requires PartRank(z) == base ==> ReduceDigits(s, base).ok && ReduceDigits(s, base).rest == z[PartLength(z)..]
    requires PartRank(z) != base && !StartsRun(z) ==> ReduceDigits(s, base) == Reduced(false, z, 0)
    ensures var (ok, rest) := Later(s, base, limit < 10000);
            ok && GroupEnds(rest, lastBase) <==> GroupGoesOn(s, limit, lastBase)
    decreases base, 0
  {
    hide ReduceDigits, Later, GroupGoesOn, GroupEnds, Overrun, Clear, ZerosOff, Stage, PartRank;
    if PartRank(z) == base {
      var rest := z[PartLength(z)..];
      PartIsClear(z);
      ClearBehind(rest, base);
      StageIff(rest, Below(base), base, lastBase);
      PartStage(s, z, base, limit, lastBase);
    } else if StartsRun(z) {
      RunStageFrom(s, z, base, limit, lastBase);
    } else {
      StageBehindZeros(s, z, base, limit);
      StageIff(z, Below(base), limit, lastBase);
      SkipStage(s, z, base, limit, lastBase);
    }
  }

  lemma RunStageFrom(s: Tokens, z: Tokens, base: U64, limit: U64, lastBase: U64)
    requires Stage(s, base, limit) && Clear(s, base, limit) && IsBase(base) && ZerosOff(s, z) && StartsRun(z)
    ensures var (ok, rest) := Later(s, base, limit < 10000);
            ok && GroupEnds(rest, lastBase) <==> GroupGoesOn(s, limit, lastBase)
  {
    hide Later, GroupEnds, GroupGoesOn, Clear, Stage;
    RunStage(s, base, limit, lastBase);
  }

  lemma ClearBehind(rest: Tokens, base: U64)
    requires IsBase(base) && (base >= 100 ==> !GivesUpAt(rest, base / 10))
    ensures Stage(rest, Below(base), base) && Clear(rest, Below(base), base)
  {
    hide GivesUpAt;
  }

  lemma StageBehindZeros(s: Tokens, z: Tokens, base: U64, limit: U64)
    requires Stage(s, base, limit) && IsBase(base) && ZerosOff(s, z) && PartRank(z) != base && !StartsRun(z)
    ensures Stage(z, Below(base), limit) && Clear(z, Below(base), limit) && 100 <= limit <= 10000
  {
    assert limit > 10 * base ==> z == s;
    RankIsBase(z);
    hide SkipZeros, PartRank, GivesUpAt, StartsRun;
  }

  lemma RankIsBase(z: Tokens)
    ensures PartRank(z) == 0 || IsRank(PartRank(z))
  {}

  /** After a part: nothing overruns it, and nothing is overrun behind it. */
  lemma PartIsClear(z: Tokens)
    requires PartRank(z) != 0 && !Overrun(z)
    ensures var rest := z[PartLength(z)..];
            !Overrun(rest) && (PartRank(z) >= 100 ==> !GivesUpAt(rest, PartRank(z) / 10))
  {
    hide ReduceBase10, SkipZeros;
    var n := PartLength(z);
    assert n == 2 ==> z[1..][1..] == z[2..];
    var at := z[n - 1..];
    assert !Overrun(at) && at[1..] == z[n..];
    if PartRank(z) >= 100 {
      assert !OverrunAt(at);
      var digits := SkipZeros(at[1..]);
      GivesUpIff(digits, PartRank(z) / 10);
    }
  }

  lemma LaterStep(s: Tokens, base: U64, some: bool)
    requires IsBase(base)
    ensures var r := ReduceDigits(s, base); Later(s, base, some) == Later(r.rest, Below(base), some || r.ok)
  {
    hide ReduceDigits;
  }

  lemma PartStage(s: Tokens, z: Tokens, base: U64, limit: U64, lastBase: U64)
    requires Stage(s, base, limit) && IsBase(base) && ZerosOff(s, z) && PartRank(z) == base
    requires ReduceDigits(s, base).ok && ReduceDigits(s, base).rest == z[PartLength(z)..]
    ensures var rest := z[PartLength(z)..];
            && Later(s, base, limit < 10000) == Later(rest, Below(base), true)
            && (GroupGoesOn(s, limit, lastBase) <==> GroupGoesOn(rest, base, lastBase))
  {
    hide ReduceDigits, SkipZeros, GroupEnds, GroupGoesOn, PartRank, Later, StartsRun;
    LaterStep(s, base, limit < 10000);
    GoesOnWithPart(s, limit, lastBase);
  }

  lemma RunStage(s: Tokens, base: U64, limit: U64, lastBase: U64)
    requires Stage(s, base, limit) && Clear(s, base, limit) && IsBase(base) && StartsRun(SkipZeros(s))
    ensures var (ok, rest) := Later(s, base, limit < 10000);
            ok && GroupEnds(rest, lastBase) <==> GroupGoesOn(s, limit, lastBase)
  {
    var z := SkipZeros(s);
    SkipZerosTwice(s);
    ReducerTakes(s, base);
    GivesUpIff(z, base);
    var r := ReduceDigits(s, base);
    assert limit == 10 * base && PartRank(z) == 0 && GroupOver(r.rest);
    assert Clear(s, base, limit) ==> limit == 10000 || !GivesUp(z, base);
    hide ReduceDigits, SkipZeros, GivesUp, Later, GroupGoesOn, PartRank, Run, Positional, GroupEnds, Clear;
    LaterStep(s, base, limit < 10000);
    LaterAtEnd(r.rest, Below(base), limit < 10000 || r.ok);
    GoesOnWithNumber(s, limit, lastBase);
    EndsOnlyOver(z[|Run(z)|..], lastBase);
  }

  lemma SkipStage(s: Tokens, z: Tokens, base: U64, limit: U64, lastBase: U64)
    requires IsBase(base) && 100 <= limit <= 10000 && ZerosOff(s, z) && ReduceDigits(s, base) == Reduced(false, z, 0)
    ensures Later(s, base, limit < 10000) == Later(z, Below(base), limit < 10000)
    ensures GroupGoesOn(s, limit, lastBase) <==> GroupGoesOn(z, limit, lastBase)
  {
    hide ReduceDigits, GroupGoesOn, Later, SkipZeros;
    LaterStep(s, base, limit < 10000);
    SameTrimmed(s, z, limit, lastBase);
  }

  lemma SameTrimmed(s: Tokens, t: Tokens, limit: U64, lastBase: U64)
    requires Trimmed(s, limit) == Trimmed(t, limit) && 100 <= limit <= 10000
    ensures GroupGoesOn(s, limit, lastBase) <==> GroupGoesOn(t, limit, lastBase)
  {
    hide SkipZeros, PartRank, GroupEnds, Run, Positional, GroupGoesOn, Trimmed;
    var z := Trimmed(s, limit);
    if GroupOver(z) {
      GoesOnAtEnd(s, limit, lastBase);
      GoesOnAtEnd(t, limit, lastBase);
    } else if 0 < PartRank(z) < limit {
      GoesOnWithPart(s, limit, lastBase);
      GoesOnWithPart(t, limit, lastBase);
    } else {
      GoesOnWithNumber(s, limit, lastBase);
      GoesOnWithNumber(t, limit, lastBase);
    }
  }

  /** One group. */
  lemma GroupIff(s: Tokens, lastBase: U64)
    requires !Overrun(s)
    ensures ReduceGroup(s).ok && GroupEnds(ReduceGroup(s).rest, lastBase) <==> GroupGoesOn(s, 10000, lastBase)
  {
    hide ReduceGroup, Later, GroupGoesOn, Overrun;
    GroupIsLater(s);
    StageIff(s, 1000, 10000, lastBase);
  }

  /** All groups: without an overrun, a text splits into groups exactly when it is grammatical. */
  lemma {:induction false} GroupsIff(s: Tokens, lastBase: U64)
    requires !Overrun(s)
    ensures Groups(s, lastBase).Some? <==> GroupGoesOn(s, 10000, lastBase)
    decreases |s|
  {
    hide ReduceGroup, GroupGoesOn, Overrun, GroupLoses;
    GroupIff(s, lastBase);
    var r := ReduceGroup(s);
    if r.ok {
      GroupShape(s);
      GroupMeaning(s, 0);
      if r.rest != [] && r.rest[0] < lastBase && r.rest[1..] != [] {
        OverrunTail(r.rest);
        GroupsIff(r.rest[1..], r.rest[0]);
      }
    }
  }

  lemma OverrunTail(s: Tokens)
    requires s != [] && !Overrun(s)
    ensures !Overrun(s[1..])
  {}

  /** Without an overrun the groups sum up to what the text means. */
  lemma {:induction false} GroupsMean(s: Tokens, lastBase: U64, total: nat)
    requires !Overrun(s) && Groups(s, lastBase).Some?
    ensures Meaning(s, 0, 0, total) == total + Sum(Groups(s, lastBase).value)
    decreases |s|
  {
    hide ReduceGroup, Overrun, GroupLoses, Meaning;
    var r := ReduceGroup(s);
    GroupShape(s);
    GroupMeaning(s, total);
    var gs := Groups(s, lastBase).value;
    if r.rest == [] {
      NothingMeans(r.num, total);
      assert gs[1..] == [];
    } else {
      BigBaseMeaning(r.rest, r.num, total);
      if r.rest[1..] == [] {
        NothingMeans(0, total + r.num * r.rest[0]);
        assert gs[1..] == [];
      } else {
        OverrunTail(r.rest);
        GroupsMean(r.rest[1..], r.rest[0], total + r.num * r.rest[0]);
        assert gs[1..] == Groups(r.rest[1..], r.rest[0]).value;
      }
    }
  }

  // ---------------------------------------------------------------------------
  // What overruns a rank is not looked at
  // ---------------------------------------------------------------------------

  predicate EndsWithRank(p: Tokens) {
    p != [] && (p[|p| - 1] == 100 || p[|p| - 1] == 1000)
  }

  /** `q` overruns the rank that ends `p`. */
  predicate Overruns(q: Tokens, p: Tokens)
    requires p != []
  {
    OverrunAt([p[|p| - 1]] + q)
  }

  lemma {:induction false} KeptSplits(s: Tokens)
    ensures Kept(s) != s ==> EndsWithRank(Kept(s)) && Overruns(s[|Kept(s)|..], Kept(s))
  {
    hide OverrunAt;
    if s != [] {
      OverrunIsAtRank(s);
      if OverrunAt(s) {
        assert [s[0]] + s[1..] == s;
      } else {
        KeptSplits(s[1..]);
        assert s[1..][|Kept(s[1..])|..] == s[|Kept(s)|..];
      }
    }
  }

  lemma OverrunIsAtRank(s: Tokens)
    ensures OverrunAt(s) ==> s[0] == 100 || s[0] == 1000
  {
    hide SkipZeros, Run, Positional;
  }

  lemma {:induction false} SkipZerosAppend(p: Tokens, q: Tokens)
    requires EndsWithRank(p)
    ensures SkipZeros(p + q) == SkipZeros(p) + q && EndsWithRank(SkipZeros(p))
    ensures SkipZeros(p)[|SkipZeros(p)| - 1] == p[|p| - 1]
    decreases |p|
  {
    if p[0] == 0 {
      var rest := p[1..];
      assert rest[|rest| - 1] == p[|p| - 1] && (p + q)[1..] == rest + q;
      SkipZerosAppend(rest, q);
      SkipOneZero(p);
      SkipOneZero(p + q);
      hide SkipZeros;
    } else {
      NoZeroToSkip(p);
      NoZeroToSkip(p + q);
      hide SkipZeros;
    }
  }

  lemma SkipOneZero(s: Tokens)
    requires s != [] && s[0] == 0
    ensures SkipZeros(s) == SkipZeros(s[1..])
  {}

  lemma NoZeroToSkip(s: Tokens)
    requires s != [] && s[0] != 0
    ensures SkipZeros(s) == s
  {}

  lemma {:induction false} RunAppend(p: Tokens, q: Tokens)
    requires EndsWithRank(p)
    ensures Run(p + q) == Run(p) && |Run(p)| < |p|
  {
    if p[0] < 10 {
      assert (p + q)[1..] == p[1..] + q;
      RunAppend(p[1..], q);
    }
  }

  /** The digits that lead `z` do not fit below `rank` or do not end the group. */
  predicate TooMany(z: Tokens, rank: U64) {
    StartsRun(z) && (Positional(Run(z), 0) >= rank || !GroupOver(z[|Run(z)|..]))
  }

  lemma OverrunMeans(x: U64, t: Tokens)
    ensures OverrunAt([x] + t) <==> (x == 100 || x == 1000) && TooMany(SkipZeros(t), x)
  {
    hide SkipZeros, Run, Positional;
    assert ([x] + t)[1..] == t;
  }

  lemma TooManyAppend(z: Tokens, q: Tokens, rank: U64)
    requires EndsWithRank(z)
    ensures TooMany(z + q, rank) <==> TooMany(z, rank)
  {
    hide Run, Positional;
    RunAppend(z, q);
    var n := |Run(z)|;
    assert (z + q)[n..] == z[n..] + q;
  }

  /** Whether digits overrun a token is decided before the next rank is over. */
  lemma OverrunAtAppend(x: U64, p: Tokens, q: Tokens)
    requires EndsWithRank(p)
    ensures OverrunAt([x] + (p + q)) <==> OverrunAt([x] + p)
  {
    hide SkipZeros, TooMany, OverrunAt;
    OverrunMeans(x, p);
    OverrunMeans(x, p + q);
    SkipZerosAppend(p, q);
    TooManyAppend(SkipZeros(p), q, x);
  }

  lemma {:induction false} KeptIsNotOverrun(s: Tokens)
    ensures !Overrun(Kept(s))
    decreases |s|
  {
    hide OverrunAt, Overrun;
    if s == [] {
      NothingOverrun();
    } else if OverrunAt(s) {
      RankAloneIsNotOverrun(s[0]);
      NothingOverrun();
      OverrunStep(s[0], []);
      assert [s[0]] + [] == [s[0]];
    } else {
      var p := Kept(s[1..]);
      KeptIsNotOverrun(s[1..]);
      KeptSplits(s[1..]);
      OverrunStep(s[0], p);
      assert [s[0]] + s[1..] == s;
      if p != s[1..] {
        var q := s[1..][|p|..];
        assert s[1..] == p + q;
        OverrunAtAppend(s[0], p, q);
      }
    }
  }

  lemma NothingOverrun()
    ensures !Overrun([])
  {}

  lemma OverrunStep(x: U64, t: Tokens)
    ensures Overrun([x] + t) <==> OverrunAt([x] + t) || Overrun(t)
  {
    hide OverrunAt;
    assert ([x] + t)[1..] == t;
  }

  lemma RankAloneIsNotOverrun(x: U64)
    ensures !OverrunAt([x])
  {
    assert [x][1..] == [] && SkipZeros([]) == [];
  }

  lemma PartAppend(z: Tokens, q: Tokens)
    requires EndsWithRank(z)
    ensures PartRank(z + q) == PartRank(z) && (StartsRun(z + q) <==> StartsRun(z))
    ensures PartRank(z) != 0 ==>
              && PartLength(z + q) == PartLength(z)
              && (PartLength(z) == |z| ==> PartRank(z) == z[|z| - 1])
  {}

  lemma GivesUpAppend(z: Tokens, q: Tokens, base: U64)
    requires EndsWithRank(z) && IsBase(base)
    ensures GivesUp(z + q, base) <==> GivesUp(z, base)
    ensures Run(z + q) == Run(z) && (z + q)[|Run(z)|..] == z[|Run(z)|..] + q
    ensures |Run(z)| < |z|
  {
    hide ReduceBase10, Positional, Run, GivesUp;
    RunAppend(z, q);
    GivesUpIff(z, base);
    GivesUpIff(z + q, base);
    var n := |Run(z)|;
    assert (z + q)[n..] == z[n..] + q;
  }

  /** What a reducer makes of a text does not depend on what overruns the rank that ends it, until that is read. */
  lemma ReducerAppend(p: Tokens, q: Tokens, base: U64)
    requires EndsWithRank(p) && IsBase(base)
    ensures var r := ReduceDigits(p, base); var r' := ReduceDigits(p + q, base);
            && r'.ok == r.ok && (r.ok ==> r'.num == r.num)
            && (|| (r.rest == [] == r'.rest && !r.ok)
                || (r.rest == [] && r'.rest == q && base == p[|p| - 1])
                || (EndsWithRank(r.rest) && r.rest[|r.rest| - 1] == p[|p| - 1] && r'.rest == r.rest + q))
  {
    ReducerTakes(p, base);
    ReducerTakes(p + q, base);
    SkipZerosAppend(p, q);
    hide ReduceDigits, SkipZeros, GivesUp, Run, Positional, PartRank, StartsRun;
    ReductAppend(p, q, SkipZeros(p), base);
  }

  lemma ReductAppend(p: Tokens, q: Tokens, z: Tokens, base: U64)
    requires EndsWithRank(p) && EndsWithRank(z) && z[|z| - 1] == p[|p| - 1] && IsBase(base)
    requires Takes(ReduceDigits(p, base), z, base) && Takes(ReduceDigits(p + q, base), z + q, base)
    ensures var r := ReduceDigits(p, base); var r' := ReduceDigits(p + q, base);
            && r'.ok == r.ok && (r.ok ==> r'.num == r.num)
            && (|| (r.rest == [] == r'.rest && !r.ok)
                || (r.rest == [] && r'.rest == q && base == p[|p| - 1])
                || (EndsWithRank(r.rest) && r.rest[|r.rest| - 1] == p[|p| - 1] && r'.rest == r.rest + q))
  {
    hide ReduceDigits, GivesUp, Run, Positional, PartRank, StartsRun;
    PartAppend(z, q);
    GivesUpAppend(z, q, base);
    if PartRank(z) == base {
      var n := PartLength(z);
      assert (z + q)[n..] == z[n..] + q;
      if n == |z| {
        assert z[n..] == [] && [] + q == q;
      }
    }
  }

  /** What the reducers from `base` on make of `s`, with the number they add up to. */
  function Remaining(s: Tokens, base: U64): (bool, Tokens, nat)
    requires IsBase(base) || base == 1
    decreases base
  {
    if base == 1 then (ReduceOnes(s).ok, ReduceOnes(s).rest, Counted(ReduceOnes(s)))
    else
      var r := ReduceDigits(s, base); var (ok, rest, num) := Remaining(r.rest, Below(base));
      (r.ok || ok, rest, Counted(r) + num)
  }

  lemma GroupIsRemaining(s: Tokens)
    ensures var (ok, rest, num) := Remaining(s, 1000); var r := ReduceGroup(s);
            r.rest == rest && r.num == num && (r.ok <==> ok && GroupOver(rest))
  {
    hide ReduceDigits, ReduceOnes, Counted;
    GroupBound(s);
    var k := ReduceDigits(s, 1000);
    var h := ReduceDigits(k.rest, 100);
    var t := ReduceDigits(h.rest, 10);
    RemainingStep(s, 1000);
    RemainingStep(k.rest, 100);
    RemainingStep(h.rest, 10);
    assert Remaining(t.rest, 1) == (ReduceOnes(t.rest).ok, ReduceOnes(t.rest).rest, Counted(ReduceOnes(t.rest)));
  }

  lemma RemainingStep(s: Tokens, base: U64)
    requires IsBase(base)
    ensures var r := ReduceDigits(s, base); var (ok, rest, num) := Remaining(r.rest, Below(base));
            Remaining(s, base) == (r.ok || ok, rest, Counted(r) + num)
  {
    hide ReduceDigits, Counted;
  }

  lemma NothingReduced(base: U64)
    requires IsBase(base)
    ensures ReduceDigits([], base) == Reduced(false, [], 0)
  {}

  lemma OverrunIsDropped(q: Tokens, base: U64)
    requires (base == 10 || base == 100) && OverrunAt([base * 10] + q)
    ensures ReduceDigits(q, base) == Reduced(false, [], 0)
  {
    hide ReduceBase10, SkipZeros;
    assert ([base * 10] + q)[1..] == q;
    GivesUpIff(SkipZeros(q), base);
  }

  lemma RemainingAppend(p: Tokens, q: Tokens, base: U64)
    requires EndsWithRank(p) && Overruns(q, p) && (IsBase(base) || base == 1)
    ensures var a := Remaining(p + q, base); var b := Remaining(p, base);
            && a.0 == b.0 && a.2 == b.2
            && ((a.1 == [] && b.1 == [])
                || (EndsWithRank(b.1) && b.1[|b.1| - 1] == p[|p| - 1] && a.1 == b.1 + q))
    decreases base
  {
    hide OverrunAt, ReduceDigits;
    if base == 1 {
      assert p[0] < 10 ==> |p| >= 2 && (p + q)[1..] == p[1..] + q;
    } else {
      RemainingStep(p, base);
      RemainingStep(p + q, base);
      ReducerAppend(p, q, base);
      hide Remaining, Overruns;
      var r := ReduceDigits(p, base);
      if r.rest == [] {
        if ReduceDigits(p + q, base).rest != [] {
          DroppedAlike(p, q, base);
        }
      } else {
        assert Overruns(q, r.rest) by { SameOverruns(q, p, r.rest); }
        RemainingAppend(r.rest, q, Below(base));
      }
    }
  }

  lemma SameOverruns(q: Tokens, p: Tokens, p': Tokens)
    requires p != [] && p' != [] && p[|p| - 1] == p'[|p'| - 1] && Overruns(q, p)
    ensures Overruns(q, p')
  {}

  /** Behind the rank that is overrun nothing is left to read, with or without what overruns it. */
  lemma DroppedAlike(p: Tokens, q: Tokens, base: U64)
    requires EndsWithRank(p) && Overruns(q, p) && base == p[|p| - 1]
    ensures Remaining(q, Below(base)) == Remaining([], Below(base)) == (false, [], 0)
  {
    hide OverrunAt, ReduceDigits, Remaining;
    OverrunIsDropped(q, Below(base));
    NothingReduced(Below(base));
    RemainingStep(q, Below(base));
    RemainingStep([], Below(base));
    NothingRemains(Below(base));
  }

  lemma NothingRemains(base: U64)
    requires IsBase(base) || base == 1
    ensures Remaining([], base) == (false, [], 0)
    decreases base
  {
    hide Remaining, ReduceDigits;
    if base == 1 {
      NothingForOnes();
    } else {
      RemainingStep([], base);
      NothingReduced(base);
      NothingRemains(Below(base));
    }
  }

  lemma NothingForOnes()
    ensures Remaining([], 1) == (false, [], 0)
  {}

  lemma GroupAppend(p: Tokens, q: Tokens)
    requires EndsWithRank(p) && Overruns(q, p)
    ensures var a := ReduceGroup(p + q); var b := ReduceGroup(p);
            && a.ok == b.ok && a.num == b.num
            && ((a.rest == [] && b.rest == [])
                || (EndsWithRank(b.rest) && b.rest[|b.rest| - 1] == p[|p| - 1] && a.rest == b.rest + q))
  {
    hide Overruns, ReduceGroup, Remaining;
    GroupIsRemaining(p);
    GroupIsRemaining(p + q);
    RemainingAppend(p, q, 1000);
  }

  lemma {:induction false} GroupsAppend(p: Tokens, q: Tokens, lastBase: U64)
    requires EndsWithRank(p) && Overruns(q, p)
    ensures Groups(p + q, lastBase) == Groups(p, lastBase)
    decreases |p|
  {
    hide ReduceGroup, OverrunAt;
    GroupAppend(p, q);
    var b := ReduceGroup(p);
    if b.ok && b.rest != [] && b.rest[0] < lastBase {
      GroupShape(p);
      var rest := b.rest[1..];
      assert (b.rest + q)[1..] == rest + q;
      GroupsAppend(rest, q, b.rest[0]);
    }
  }

  // ---------------------------------------------------------------------------
  // Which texts are accepted
  // ---------------------------------------------------------------------------

  lemma {:induction false} DigitsAreKept(s: Tokens)
    requires forall i | 0 <= i < |s| :: s[i] < 10
    ensures Kept(s) == s && Run(s) == s
  {
    if s != [] {
      DigitsAreKept(s[1..]);
    }
  }

  lemma DigitsRead(s: Tokens)
    requires s != [] && Run(s) == s
    ensures var r := ReadNumber(s); var m := Meaning(s, 0, 0, 0); (r.0 <==> m <= MAX_U64) && (r.0 ==> r.1 == m)
  {
    ReduceBase10Exact(s, 0);
    RunMeaning(s, 0, 0, 0);
    assert s[|s|..] == [];
    hide ReduceBase10, Positional;
  }

  /**
   NormalizeNumbersHelper accepts a list of tokens if and only if the part of it that is kept follows
   the grammar and means less than 2^64, and then that is what it reads.
   */
  lemma ReadExactly(s: Tokens)
    ensures var p := Kept(s); var r := ReadNumber(s); var m := Meaning(p, 0, 0, 0);
            && (r.0 <==> Grammatical(p) && m < 0x1_0000_0000_0000_0000)
            && (r.0 ==> r.1 == m)
  {
    hide Meaning, Groups, Sum, Interpret, GroupGoesOn, ReduceBase10, Kept, Overrun, OverrunAt, Overruns;
    var p := Kept(s);
    if s != [] && Run(s) == s {
      DigitsAreKept(s);
      DigitsRead(s);
    } else if s != [] {
      KeptIsNotOverrun(s);
      KeptSplits(s);
      if p != s {
        assert s == p + s[|p|..];
        GroupsAppend(p, s[|p|..], MAX_U64);
      }
      InterpretExact(s, MAX_U64, 0);
      GroupsIff(p, MAX_U64);
      if Groups(p, MAX_U64).Some? {
        GroupsMean(p, MAX_U64, 0);
      }
      NotAllDigits(s);
    }
  }

  lemma NotAllDigits(s: Tokens)
    requires Run(s) != s
    ensures var p := Kept(s); p != [] && exists i | 0 <= i < |p| :: p[i] >= 10
  {
    hide OverrunAt;
    KeptSplits(s);
    var p := Kept(s);
    if p == s {
      assert s[|Run(s)|] >= 10;
    } else {
      assert p[|p| - 1] >= 10;
    }
  }

  /** So every grammatical text that no digits overrun, and that means less than 2^64, is read as what it means. */
  lemma GrammaticalIsRead(s: Tokens)
    requires Grammatical(s) && !Overrun(s) && Meaning(s, 0, 0, 0) < 0x1_0000_0000_0000_0000
    ensures ReadNumber(s) == (true, Meaning(s, 0, 0, 0))
  {
    NotOverrunIsKept(s);
    ReadExactly(s);
  }

  lemma {:induction false} NotOverrunIsKept(s: Tokens)
    requires !Overrun(s)
    ensures Kept(s) == s
  {
    hide OverrunAt;
    if s != [] {
      NotOverrunIsKept(s[1..]);
    }
  }
}
