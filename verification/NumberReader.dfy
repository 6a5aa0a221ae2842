/**
 The reducers of src/base/number_util.cc as functions on the tokens that are left to read.
 A token is the value of one character: 0 to 9, or 10, 20, 100, 1000, 10000, 10^8, ...
 */
module NumberReader {
  import opened CheckedArithmetic
  import opened Options

  type Tokens = seq<U64>

  /** What a reducer reports, where it leaves the iterator, and the number it read. */
  datatype Reduced = Reduced(ok: bool, rest: Tokens, num: U64)

  /** The number a run of digits denotes after `acc`. */
  function Positional(digits: Tokens, acc: nat): nat
  {
    if digits == [] then acc else Positional(digits[1..], acc * 10 + digits[0])
  }

  /** The tokens below 10 that lead `s`. */
  function Run(s: Tokens): (r: Tokens)
    ensures |r| <= |s| && r == s[..|r|]
    ensures forall i | 0 <= i < |r| :: r[i] < 10
    ensures |r| < |s| ==> s[|r|] >= 10
  {
    if s == [] || s[0] >= 10 then [] else [s[0]] + Run(s[1..])
  }

  /** ReduceLeadingNumbersAsBase10System, continued from `acc`. */
  function ReduceBase10(s: Tokens, acc: U64): (r: Reduced)
    ensures |r.rest| <= |s|
  {
    if s == [] || s[0] >= 10 then Reduced(true, s, acc)
    else
      var (fits, product) := MultiplyAndCheckOverflow(acc, 10);
      if !fits then Reduced(false, s, product)
      else
        var (fits, sum) := AddAndCheckOverflow(product, s[0]);
        if !fits then Reduced(false, s, sum) else ReduceBase10(s[1..], sum)
  }

  function SkipZeros(s: Tokens): (r: Tokens)
    ensures |r| <= |s| && r == s[|s| - |r|..]
    ensures r != [] ==> r[0] != 0
  {
    if s != [] && s[0] == 0 then SkipZeros(s[1..]) else s
  }

  predicate IsBase(base: U64) {
    base == 10 || base == 100 || base == 1000
  }

  /** The guard that makes ReduceDigitsHelper give up on a run of digits. */
  predicate GivesUp(s: Tokens, base: U64)
    requires IsBase(base)
  {
    var r := ReduceBase10(s, 0);
    !r.ok || r.num >= base * 10 || (r.rest != [] && r.rest[0] < 10000)
  }

  /** Two tokens below 10 lead `s`. */
  predicate StartsRun(s: Tokens) {
    |s| >= 2 && s[0] < 10 && s[1] < 10
  }

  /** ReduceDigitsHelper. Leading zeros are consumed even when it fails. */
  function ReduceDigits(s: Tokens, base: U64): (r: Reduced)
    requires IsBase(base)
    ensures |r.rest| <= |s|
  {
    var s := SkipZeros(s);
    if s == [] then Reduced(false, s, 0)
    else if s[0] < 10 then
      if |s| < 2 then Reduced(false, s, 0)
      else if s[1] < 10 then
        if GivesUp(s, base) then Reduced(false, [], 0) else ReduceBase10(s, 0)
      else if s[1] != base || (s[0] == 1 && base != 1000) then Reduced(false, s, 0)
      else Reduced(true, s[2..], s[0] * base)
    else if s[0] == base || (base == 10 && s[0] == 20) then Reduced(true, s[1..], s[0])
    else Reduced(false, s, 0)
  }

  function ReduceOnes(s: Tokens): (r: Reduced)
    ensures |r.rest| <= |s|
  {
    if s == [] || s[0] >= 10 then Reduced(false, s, 0) else Reduced(true, s[1..], s[0])
  }

  /** Counts a reducer's number only when it succeeded. */
  function Counted(r: Reduced): nat {
    if r.ok then r.num else 0
  }

  /** ReduceNumberLessThan10000. */
  function ReduceGroup(s: Tokens): (r: Reduced)
    ensures |r.rest| <= |s|
  {
    var k := ReduceDigits(s, 1000);
    var h := ReduceDigits(k.rest, 100);
    var t := ReduceDigits(h.rest, 10);
    var o := ReduceOnes(t.rest);
    GroupBound(s);
    Reduced((k.ok || h.ok || t.ok || o.ok) && (o.rest == [] || o.rest[0] >= 10000), o.rest,
            Counted(k) + Counted(h) + Counted(t) + Counted(o))
  }

  // ---------------------------------------------------------------------------
  // What the reducers compute
  // ---------------------------------------------------------------------------

  lemma {:induction false} PositionalGrows(digits: Tokens, acc: nat)
    ensures acc <= Positional(digits, acc)
  {
    if digits != [] {
      PositionalGrows(digits[1..], acc * 10 + digits[0]);
    }
  }

  /** Reading one digit more. */
  lemma ReduceBase10Step(s: Tokens, acc: U64)
    requires s != [] && s[0] < 10
    ensures var next := acc * 10 + s[0];
            if next <= MAX_U64 then ReduceBase10(s, acc) == ReduceBase10(s[1..], next)
            else !ReduceBase10(s, acc).ok
  {
    hide MultiplyAndCheckOverflow, AddAndCheckOverflow;
  }

  /** The run of digits is read exactly, unless its value does not fit in 64 bits. */
  lemma {:induction false} ReduceBase10Exact(s: Tokens, acc: U64)
    ensures var r := ReduceBase10(s, acc); var v := Positional(Run(s), acc);
            && (r.ok <==> v <= MAX_U64)
            && (r.ok ==> r.num == v && r.rest == s[|Run(s)|..])
  {
    if s != [] && s[0] < 10 {
      hide ReduceBase10;
      var next := acc * 10 + s[0];
      var run := Run(s[1..]);
      assert Run(s) == [s[0]] + run && ([s[0]] + run)[1..] == run;
      assert s[1..][|run|..] == s[|Run(s)|..];
      assert Positional(Run(s), acc) == Positional(run, next);
      PositionalGrows(run, next);
      ReduceBase10Step(s, acc);
      if next <= MAX_U64 {
        ReduceBase10Exact(s[1..], next);
      }
    }
  }

  /** A reducer leaves room for the next ones, or nothing for them to read. */
  lemma ReduceDigitsBound(s: Tokens, base: U64)
    requires IsBase(base)
    ensures var r := ReduceDigits(s, base);
            r.ok ==> r.num <= 9 * base || (r.num < 10 * base && GroupOver(r.rest))
  {
    hide ReduceBase10, SkipZeros;
  }

  /** The group ends here: no token is left, or the next one is a big base. */
  predicate GroupOver(s: Tokens) {
    s == [] || s[0] >= 10000
  }

  lemma NothingLeft(s: Tokens, base: U64)
    requires IsBase(base) && GroupOver(s)
    ensures !ReduceDigits(s, base).ok && ReduceDigits(s, base).rest == s && !ReduceOnes(s).ok
  {}

  /** The four additions stay below 10000, so none of them can overflow. */
  lemma GroupBound(s: Tokens)
    ensures var k := ReduceDigits(s, 1000);
            var h := ReduceDigits(k.rest, 100);
            var t := ReduceDigits(h.rest, 10);
            var o := ReduceOnes(t.rest);
            Counted(k) + Counted(h) + Counted(t) + Counted(o) < 10000
  {
    hide ReduceDigits;
    var k := ReduceDigits(s, 1000);
    var h := ReduceDigits(k.rest, 100);
    var t := ReduceDigits(h.rest, 10);
    ReduceDigitsBound(s, 1000);
    ReduceDigitsBound(k.rest, 100);
    ReduceDigitsBound(h.rest, 10);
    if GroupOver(k.rest) {
      NothingLeft(k.rest, 100);
      NothingLeft(k.rest, 10);
    } else if GroupOver(h.rest) {
      NothingLeft(h.rest, 10);
    } else if GroupOver(t.rest) {
      NothingLeft(t.rest, 10);
    }
  }

  // ---------------------------------------------------------------------------
  // Groups and the number they denote
  // ---------------------------------------------------------------------------

  /** A coefficient and the base that multiplies it; base 1 for a last group without one. */
  datatype Group = Group(coef: nat, base: nat)

  /** The groups `s` splits into, in unbounded arithmetic; None when the text is malformed. */
  function Groups(s: Tokens, lastBase: U64): (gs: Option<seq<Group>>)
    decreases |s|
  {
    var r := ReduceGroup(s);
    if !r.ok then None
    else if r.rest == [] then Some([Group(r.num, 1)])
    else if r.rest[0] >= lastBase then None
    else if r.rest[1..] == [] then Some([Group(r.num, r.rest[0])])
    else
      match Groups(r.rest[1..], r.rest[0])
      case Some(gs) => Some([Group(r.num, r.rest[0])] + gs)
      case None => None
  }

  function Sum(gs: seq<Group>): nat {
    if gs == [] then 0 else gs[0].coef * gs[0].base + Sum(gs[1..])
  }

  /** InterpretNumbersInJapaneseWay, continued from `total` after base `lastBase`. */
  function Interpret(s: Tokens, lastBase: U64, total: U64): (r: (bool, U64))
    decreases |s|
  {
    var r := ReduceGroup(s);
    if !r.ok then (false, total)
    else if r.rest == [] then AddAndCheckOverflow(total, r.num)
    else if r.rest[0] >= lastBase then (false, total)
    else
      var (fits, delta) := MultiplyAndCheckOverflow(r.num, r.rest[0]);
      if !fits then (false, total)
      else
        var (fits, sum) := AddAndCheckOverflow(total, delta);
        if !fits then (false, sum)
        else if r.rest[1..] == [] then (true, sum)
        else Interpret(r.rest[1..], r.rest[0], sum)
  }

  function InJapaneseWay(s: Tokens): (r: (bool, U64)) {
    Interpret(s, MAX_U64, 0)
  }

  /** NormalizeNumbersHelper: plain positional reading unless some token scales. */
  function ReadNumber(s: Tokens): (r: (bool, U64)) {
    if s == [] then (false, 0)
    else if Run(s) == s then
      var r := ReduceBase10(s, 0);
      (r.ok && r.rest == [], r.num)
    else InJapaneseWay(s)
  }

  /** Coefficients below 10000 and bases that fall strictly, all of at least 10000 but a final 1. */
  ghost predicate WellFormed(gs: seq<Group>, lastBase: U64) {
    && gs != []
    && (forall i | 0 <= i < |gs| :: gs[i].coef < 10000 && gs[i].base < lastBase)
    && (forall i | 0 <= i < |gs| - 1 :: gs[i].base >= 10000)
    && (gs[|gs| - 1].base >= 10000 || gs[|gs| - 1].base == 1)
    && (forall i, j | 0 <= i < j < |gs| :: gs[i].base > gs[j].base)
  }

  lemma {:induction false} GroupsWellFormed(s: Tokens, lastBase: U64)
    requires lastBase >= 10000
    ensures Groups(s, lastBase).Some? ==> WellFormed(Groups(s, lastBase).value, lastBase)
    decreases |s|
  {
    hide ReduceGroup;
    var r := ReduceGroup(s);
    GroupShape(s);
    if r.ok && r.rest != [] && r.rest[0] < lastBase && r.rest[1..] != [] {
      GroupsWellFormed(r.rest[1..], r.rest[0]);
    }
  }

  lemma GroupShape(s: Tokens)
    ensures var r := ReduceGroup(s); r.ok ==> r.num < 10000 && GroupOver(r.rest)
  {
    hide ReduceDigits;
    GroupBound(s);
  }

  /** The reader accepts exactly the texts whose groups sum to a 64-bit number, and returns that sum unwrapped. */
  lemma {:induction false} InterpretExact(s: Tokens, lastBase: U64, total: U64)
    ensures var r := Interpret(s, lastBase, total); var gs := Groups(s, lastBase);
            && (r.0 <==> gs.Some? && total + Sum(gs.value) <= MAX_U64)
            && (r.0 ==> r.1 == total + Sum(gs.value))
    decreases |s|
  {
    hide ReduceGroup, MultiplyAndCheckOverflow, AddAndCheckOverflow;
    var r := ReduceGroup(s);
    if r.ok && r.rest != [] && r.rest[0] < lastBase {
      var delta := r.num * r.rest[0];
      var tail := Groups(r.rest[1..], r.rest[0]);
      assert tail.Some? ==> Sum([Group(r.num, r.rest[0])] + tail.value) == delta + Sum(tail.value) by {
        if tail.Some? {
          assert ([Group(r.num, r.rest[0])] + tail.value)[1..] == tail.value;
        }
      }
      if total + delta <= MAX_U64 && r.rest[1..] != [] {
        InterpretExact(r.rest[1..], r.rest[0], total + delta);
      }
    }
  }
}
