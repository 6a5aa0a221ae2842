/** Util::SplitStringToUtf8Graphemes of src/base/util.cc, on the codepoints of the text. */
module Graphemes {

  type Codepoint = nat
  type Grapheme = seq<Codepoint>

  const STANDALONE: Codepoint := 0
  const JOINER: Codepoint := 0x200D

  predicate Regional(c: Codepoint) {
    0x1F1E6 <= c <= 0x1F1FF
  }

  /** Codepoints that join what precedes them, whatever it is. */
  predicate Extends(c: Codepoint) {
    || c == 0x3099 || c == 0x309A
    || 0xFE00 <= c <= 0xFE0F
    || 0xE0100 <= c <= 0xE01EF
    || 0x1F3FB <= c <= 0x1F3FF
    || 0xE0020 <= c <= 0xE007F
    || c == JOINER
  }

  // ---------------------------------------------------------------------------
  // Where a text breaks
  // ---------------------------------------------------------------------------

  /** How many regional indicators stand right before position `i`. */
  function RunBefore(cs: seq<Codepoint>, i: nat): nat
    requires i <= |cs|
  {
    if i == 0 || !Regional(cs[i - 1]) then 0 else 1 + RunBefore(cs, i - 1)
  }

  /**
   There is no break before position `i`. For regional indicators these are rules GB12 and GB13 of
   section 3.1.1 of UAX #29: no break after an odd number of them.
   */
  predicate Joins(cs: seq<Codepoint>, i: nat)
    requires i < |cs|
  {
    i > 0 &&
    (|| Extends(cs[i])
     || (cs[i - 1] == 0xFE0F && cs[i] == 0x20E3)
     || cs[i - 1] == JOINER
     || (Regional(cs[i]) && RunBefore(cs, i) % 2 == 1))
  }

  function AppendToLast(gs: seq<Grapheme>, c: Codepoint): seq<Grapheme>
    requires gs != []
  {
    gs[..|gs| - 1] + [gs[|gs| - 1] + [c]]
  }

  /** The pieces of a text between its breaks. */
  function Pieces(cs: seq<Codepoint>): (gs: seq<Grapheme>)
    ensures cs != [] ==> gs != []
  {
    if cs == [] then []
    else
      var last := |cs| - 1;
      var gs := Pieces(cs[..last]);
      if Joins(cs, last) then AppendToLast(gs, cs[last]) else gs + [[cs[last]]]
  }

  // ---------------------------------------------------------------------------
  // The method
  // ---------------------------------------------------------------------------

  /** What the loop remembers of the codepoint before position `i`: nothing if that completed a flag. */
  function Previous(cs: seq<Codepoint>, i: nat): Codepoint
    requires i <= |cs|
  {
    if i == 0 || (Regional(cs[i - 1]) && RunBefore(cs, i - 1) % 2 == 1) then STANDALONE else cs[i - 1]
  }

  /** The remembered codepoint is a regional indicator after an odd number of them. */
  lemma PreviousRegional(cs: seq<Codepoint>, i: nat)
    requires i <= |cs|
    ensures Regional(Previous(cs, i)) <==> RunBefore(cs, i) % 2 == 1
  {
    if i > 0 {
      NextParity(RunBefore(cs, i - 1));
    }
  }

  lemma NextParity(n: nat)
    ensures (1 + n) % 2 == 1 <==> n % 2 != 1
  {}

  lemma RunOfPrefix(cs: seq<Codepoint>, k: nat, i: nat)
    requires i <= k <= |cs|
    ensures RunBefore(cs[..k], i) == RunBefore(cs, i)
  {}

  method SplitStringToUtf8Graphemes(codepoints: seq<Codepoint>) returns (graphemes: seq<Grapheme>)
    ensures graphemes == Pieces(codepoints)
  {
    hide RunBefore;
    graphemes := [];
    var prev := STANDALONE;
    for i := 0 to |codepoints|
      invariant graphemes == Pieces(codepoints[..i])
      invariant i > 0 ==> graphemes != []
      invariant prev == Previous(codepoints, i)
    {
      var codepoint := codepoints[i];
      ghost var text := codepoints[..i + 1];
      assert text[..i] == codepoints[..i];
      RunOfPrefix(codepoints, i + 1, i);
      PreviousRegional(codepoints, i);
      var isDakuten := codepoint == 0x3099 || codepoint == 0x309A;
      var isSvs := 0xFE00 <= codepoint <= 0xFE0F;
      var isIvs := 0xE0100 <= codepoint <= 0xE01EF;
      var isTextPresentation := codepoint == 0xFE0E;
      var isEmojiPresentation := codepoint == 0xFE0F;
      var isEmojiModifier := 0x1F3FB <= codepoint <= 0x1F3FF;
      var isEmojiFlag := Regional(prev) && Regional(codepoint);
      var isEmojiTag := 0xE0020 <= codepoint <= 0xE007E || codepoint == 0xE007F;
      var isEmojiKeycap := prev == 0xFE0F && codepoint == 0x20E3;
      var isEmojiZwj := codepoint == JOINER || prev == JOINER;
      if isEmojiFlag && graphemes != [] {
        graphemes := AppendToLast(graphemes, codepoint);
        prev := STANDALONE;
      } else {
        if (isDakuten || isSvs || isIvs || isTextPresentation || isEmojiPresentation || isEmojiModifier
            || isEmojiTag || isEmojiKeycap || isEmojiZwj) && graphemes != [] {
          graphemes := AppendToLast(graphemes, codepoint);
        } else {
          graphemes := graphemes + [[codepoint]];
        }
        prev := codepoint;
      }
    }
    assert codepoints[..|codepoints|] == codepoints;
  }

  // ---------------------------------------------------------------------------
  // Nothing is lost
  // ---------------------------------------------------------------------------

  function Flatten(gs: seq<Grapheme>): seq<Codepoint> {
    if gs == [] then [] else Flatten(gs[..|gs| - 1]) + gs[|gs| - 1]
  }

  lemma FlattenMore(gs: seq<Grapheme>, g: Grapheme)
    ensures Flatten(gs + [g]) == Flatten(gs) + g
  {
    assert (gs + [g])[..|gs|] == gs;
  }

  lemma FlattenAppended(gs: seq<Grapheme>, c: Codepoint)
    requires gs != []
    ensures Flatten(AppendToLast(gs, c)) == Flatten(gs) + [c]
  {
    FlattenMore(gs[..|gs| - 1], gs[|gs| - 1] + [c]);
  }

  predicate NoneEmpty(gs: seq<Grapheme>) {
    forall i | 0 <= i < |gs| :: gs[i] != []
  }

  /** The graphemes of a text, one after the other, are the text, and none of them is empty. */
  lemma {:induction false} FlattenPieces(cs: seq<Codepoint>)
    ensures Flatten(Pieces(cs)) == cs && NoneEmpty(Pieces(cs))
  {
    hide Joins, Flatten;
    if cs == [] {
      assert Flatten([]) == [] by { FlattenNothing(); }
    } else {
      var last := |cs| - 1;
      var gs := Pieces(cs[..last]);
      FlattenPieces(cs[..last]);
      assert cs == cs[..last] + [cs[last]];
      FlattenMore(gs, [cs[last]]);
      if Joins(cs, last) {
        FirstDoesNotJoin(cs, last);
        FlattenAppended(gs, cs[last]);
      }
    }
  }

  lemma FlattenNothing()
    ensures Flatten([]) == []
  {}

  lemma FirstDoesNotJoin(cs: seq<Codepoint>, i: nat)
    requires i < |cs| && Joins(cs, i)
    ensures i > 0
  {}

  // ---------------------------------------------------------------------------
  // Breaks can be found locally
  // ---------------------------------------------------------------------------

  lemma JoinsInPrefix(cs: seq<Codepoint>, k: nat, i: nat)
    requires i < k <= |cs|
    ensures Joins(cs[..k], i) <==> Joins(cs, i)
  {
    hide RunBefore;
    RunOfPrefix(cs, k, i);
  }

  /** Behind a break, the parity of a run of regional indicators does not depend on what precedes the break. */
  lemma {:induction false} RunBehindBreak(cs: seq<Codepoint>, a: nat, i: nat)
    requires a < i <= |cs| && !Joins(cs, a)
    ensures RunBefore(cs[a..], i - a) % 2 == RunBefore(cs, i) % 2
    decreases i
  {
    if Regional(cs[i - 1]) && i - 1 > a {
      RunBehindBreak(cs, a, i - 1);
    }
  }

  /** Behind a break, a text breaks where it would break alone. */
  lemma JoinsBehindBreak(cs: seq<Codepoint>, a: nat, i: nat)
    requires a < i < |cs| && !Joins(cs, a)
    ensures Joins(cs[a..], i - a) <==> Joins(cs, i)
  {
    RunBehindBreak(cs, a, i);
    hide RunBefore;
  }

  /** A text splits at a position into the pieces of its two parts, whenever there is a break there. */
  lemma {:induction false} PiecesAtBreak(cs: seq<Codepoint>, a: nat)
    requires a < |cs| && !Joins(cs, a)
    ensures Pieces(cs) == Pieces(cs[..a]) + Pieces(cs[a..])
    decreases |cs|
  {
    hide Joins, Pieces;
    var last := |cs| - 1;
    if a == last {
      PiecesAtLastBreak(cs);
    } else {
      var front := cs[..last];
      JoinsInPrefix(cs, last, a);
      PiecesAtBreak(front, a);
      assert front[..a] == cs[..a] && front[a..] == cs[a..last];
      PiecesAtBreakMore(cs, a);
    }
  }

  lemma PiecesAtLastBreak(cs: seq<Codepoint>)
    requires cs != [] && !Joins(cs, |cs| - 1)
    ensures Pieces(cs) == Pieces(cs[..|cs| - 1]) + Pieces(cs[|cs| - 1..])
  {
    hide Joins, Pieces;
    var tail := cs[|cs| - 1..];
    PiecesMore(cs);
    PiecesMore(tail);
    assert tail[..0] == [] && tail[0] == cs[|cs| - 1];
    BreakAtStart(tail);
    PiecesOfNothing();
  }

  lemma PiecesAtBreakMore(cs: seq<Codepoint>, a: nat)
    requires a < |cs| - 1 && !Joins(cs, a)
    requires Pieces(cs[..|cs| - 1]) == Pieces(cs[..a]) + Pieces(cs[a..|cs| - 1])
    ensures Pieces(cs) == Pieces(cs[..a]) + Pieces(cs[a..])
  {
    hide Joins, Pieces, AppendToLast;
    var last, tail := |cs| - 1, cs[a..];
    assert tail[..|tail| - 1] == cs[a..last] && tail[|tail| - 1] == cs[last];
    JoinsBehindBreak(cs, a, last);
    PiecesMore(cs);
    PiecesMore(tail);
    AppendInTail(Pieces(cs[..a]), Pieces(cs[a..last]), cs[last]);
  }

  lemma PiecesMore(cs: seq<Codepoint>)
    requires cs != []
    ensures var gs := Pieces(cs[..|cs| - 1]); var c := cs[|cs| - 1];
            && (|cs| > 1 ==> gs != [])
            && (Joins(cs, |cs| - 1) ==> gs != [])
            && Pieces(cs) == if Joins(cs, |cs| - 1) then AppendToLast(gs, c) else gs + [[c]]
  {
    if Joins(cs, |cs| - 1) {
      FirstDoesNotJoin(cs, |cs| - 1);
    }
    hide Joins;
  }

  lemma PiecesOfNothing()
    ensures Pieces([]) == []
  {}

  lemma AppendInTail(gs: seq<Grapheme>, hs: seq<Grapheme>, c: Codepoint)
    requires hs != []
    ensures AppendToLast(gs + hs, c) == gs + AppendToLast(hs, c)
    ensures gs + hs + [[c]] == gs + (hs + [[c]])
  {}

  lemma BreakAtStart(cs: seq<Codepoint>)
    requires cs != []
    ensures !Joins(cs, 0)
  {}

  /** Every piece but the first begins at a break. */
  lemma {:induction false} PieceBegins(cs: seq<Codepoint>, k: nat)
    requires k < |Pieces(cs)|
    ensures |Flatten(Pieces(cs)[..k])| < |cs| && !Joins(cs, |Flatten(Pieces(cs)[..k])|)
    decreases |cs|
  {
    hide Joins, Flatten;
    var last := |cs| - 1;
    var front := cs[..last];
    var gs := Pieces(front);
    FlattenPieces(front);
    if Joins(cs, last) {
      FirstDoesNotJoin(cs, last);
    }
    if k < |gs| {
      PieceBegins(front, k);
      var at := |Flatten(gs[..k])|;
      JoinsInPrefix(cs, last, at);
      assert Pieces(cs)[..k] == gs[..k];
    } else {
      assert Pieces(cs)[..k] == gs;
    }
  }

  /** Cutting a text in two and splitting the parts gives its graphemes if and only if it breaks at the cut. */
  lemma SplitsExactlyAtBreaks(cs: seq<Codepoint>, a: nat)
    requires a < |cs|
    ensures Pieces(cs) == Pieces(cs[..a]) + Pieces(cs[a..]) <==> !Joins(cs, a)
  {
    hide Joins, Flatten;
    if !Joins(cs, a) {
      PiecesAtBreak(cs, a);
    } else if Pieces(cs) == Pieces(cs[..a]) + Pieces(cs[a..]) {
      var k := |Pieces(cs[..a])|;
      FlattenPieces(cs[..a]);
      assert Pieces(cs)[..k] == Pieces(cs[..a]);
      PieceBegins(cs, k);
    }
  }

  /** Splitting a grapheme again gives just this grapheme. */
  lemma {:induction false} PieceIsOnePiece(cs: seq<Codepoint>, k: nat)
    requires k < |Pieces(cs)|
    ensures Pieces(Pieces(cs)[k]) == [Pieces(cs)[k]]
    decreases |cs|
  {
    hide Joins, Flatten;
    var last := |cs| - 1;
    var front := cs[..last];
    var gs := Pieces(front);
    if Joins(cs, last) {
      FirstDoesNotJoin(cs, last);
    }
    if k < |gs| - 1 || (k < |gs| && !Joins(cs, last)) {
      PieceIsOnePiece(front, k);
      assert Pieces(cs)[k] == gs[k];
    } else if k == |gs| {
      OneAlone(cs[last]);
    } else {
      PieceIsOnePiece(front, k);
      assert gs == gs[..k] + [gs[k]] && cs == front + [cs[last]];
      LastPieceGrows(front, cs[last], gs[..k], gs[k]);
    }
  }

  lemma OneAlone(c: Codepoint)
    ensures Pieces([c]) == [[c]]
  {
    assert [c][..0] == [];
    assert Pieces([c]) == Pieces([]) + [[c]];
  }

  lemma LastPieceGrows(front: seq<Codepoint>, c: Codepoint, before: seq<Grapheme>, g: Grapheme)
    requires Joins(front + [c], |front|) && Pieces(front) == before + [g] && Pieces(g) == [g]
    ensures Pieces(g + [c]) == [g + [c]]
  {
    hide Joins, Flatten, Pieces;
    var cs, a := front + [c], |Flatten(before)|;
    assert cs[..|front|] == front && (before + [g])[..|before|] == before && (before + [g])[|before|] == g;
    FlattenPieces(front);
    FlattenMore(before, g);
    PieceBegins(front, |before|);
    JoinsInPrefix(cs, |front|, a);
    JoinsBehindBreak(cs, a, |front|);
    assert cs[a..] == g + [c];
    GrownPiece(g, c);
  }

  lemma GrownPiece(g: Grapheme, c: Codepoint)
    requires g != [] && Pieces(g) == [g] && Joins(g + [c], |g|)
    ensures Pieces(g + [c]) == [g + [c]]
  {
    hide Joins;
    assert (g + [c])[..|g|] == g;
  }

  // ---------------------------------------------------------------------------
  // Flags
  // ---------------------------------------------------------------------------

  predicate AllRegional(cs: seq<Codepoint>) {
    forall i | 0 <= i < |cs| :: Regional(cs[i])
  }

  lemma {:induction false} RunOfRegional(cs: seq<Codepoint>, i: nat)
    requires AllRegional(cs) && i <= |cs|
    ensures RunBefore(cs, i) == i
    decreases i
  {
    if i > 0 {
      RunOfRegional(cs, i - 1);
    }
  }

  /** Regional indicators pair up from the front: any `m` of them make half of `m`, rounded up, graphemes. */
  lemma {:induction false} FlagsPairUp(cs: seq<Codepoint>)
    requires AllRegional(cs)
    ensures |Pieces(cs)| == (|cs| + 1) / 2
    decreases |cs|
  {
    hide Joins, Pieces;
    if cs == [] {
      PiecesOfNothing();
    } else {
      FlagsPairUp(cs[..|cs| - 1]);
      FlagJoins(cs, |cs| - 1);
      PiecesMore(cs);
      NextHalf(|cs| - 1);
    }
  }

  lemma NextHalf(n: nat)
    ensures (n + 2) / 2 == (n + 1) / 2 + if n % 2 == 1 then 0 else 1
  {}

  lemma FlagJoins(cs: seq<Codepoint>, i: nat)
    requires AllRegional(cs) && i < |cs|
    ensures Joins(cs, i) <==> i % 2 == 1
  {
    RunOfRegional(cs, i);
    hide RunBefore;
    if i > 0 {
      assert Regional(cs[i - 1]) && Regional(cs[i]);
    }
  }

  // ---------------------------------------------------------------------------
  // The codepoints that join, by number
  // ---------------------------------------------------------------------------

  /**
   Apart from flags, the last codepoint `c` of a text joins the grapheme before it exactly when it is a
   (semi-)voiced sound mark, a variation selector, a skin tone, a tag or a joiner, when it follows a
   joiner, or when it is the keycap behind the emoji presentation.
   */
  lemma JoinsIffListed(front: seq<Codepoint>, a: Codepoint, c: Codepoint)
    requires !(0x1F1E6 <= a <= 0x1F1FF && 0x1F1E6 <= c <= 0x1F1FF)
    ensures var gs := Pieces(front + [a]); var all := Pieces(front + [a] + [c]);
            if c == 0x3099 || c == 0x309A || 0xFE00 <= c <= 0xFE0F || 0xE0100 <= c <= 0xE01EF || 0x1F3FB <= c <= 0x1F3FF
               || 0xE0020 <= c <= 0xE007F || c == 0x200D || a == 0x200D || (a == 0xFE0F && c == 0x20E3)
            then gs != [] && all == gs[..|gs| - 1] + [gs[|gs| - 1] + [c]]
            else all == gs + [[c]]
  {
    hide Pieces;
    var cs := front + [a] + [c];
    assert cs[..|cs| - 1] == front + [a] && cs[|front|] == a && cs[|front| + 1] == c;
    PiecesMore(cs);
  }

  predicate EndsInFlagLetter(cs: seq<Codepoint>) {
    cs != [] && 0x1F1E6 <= cs[|cs| - 1] <= 0x1F1FF
  }

  /** Among flag letters every second one joins the one before it; after a joiner even the first one joins. */
  lemma FlagJoinsIff(front: seq<Codepoint>, flags: seq<Codepoint>, c: Codepoint)
    requires !EndsInFlagLetter(front) && 0x1F1E6 <= c <= 0x1F1FF
    requires forall i | 0 <= i < |flags| :: 0x1F1E6 <= flags[i] <= 0x1F1FF
    ensures var gs := Pieces(front + flags); var all := Pieces(front + flags + [c]);
            if |flags| % 2 == 1 || (flags == [] && front != [] && front[|front| - 1] == 0x200D)
            then gs != [] && all == gs[..|gs| - 1] + [gs[|gs| - 1] + [c]]
            else all == gs + [[c]]
  {
    hide Pieces;
    var cs, n := front + flags + [c], |front| + |flags|;
    assert cs[..|cs| - 1] == front + flags && cs[n] == c;
    RunBehind(cs, front, flags, n);
    hide RunBefore;
    assert n > |front| ==> cs[n - 1] == flags[|flags| - 1];
    PiecesMore(cs);
  }

  lemma {:induction false} RunBehind(cs: seq<Codepoint>, front: seq<Codepoint>, flags: seq<Codepoint>, i: nat)
    requires !EndsInFlagLetter(front) && AllRegional(flags)
    requires |front| <= i <= |front| + |flags| <= |cs| && cs[..|front| + |flags|] == front + flags
    ensures RunBefore(cs, i) == i - |front|
    decreases i
  {
    var n := |front| + |flags|;
    if i > |front| {
      assert cs[i - 1] == cs[..n][i - 1] == flags[i - 1 - |front|];
      RunBehind(cs, front, flags, i - 1);
    } else if front != [] {
      assert cs[i - 1] == cs[..n][i - 1] == front[i - 1];
    }
  }
}
