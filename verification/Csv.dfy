/** Util::SplitCSV of src/base/util.cc: fields cut out of one buffer, in which quoted fields are unquoted in place. */
module Csv {

  const COMMA := ','
  const QUOTE := '"'

  predicate Blank(c: char) {
    c == ' ' || c == '\t'
  }

  // ---------------------------------------------------------------------------
  // The fields of a line
  // ---------------------------------------------------------------------------

  /** The character at `i`; behind the end there is the terminator. */
  function At(s: string, i: nat): char {
    if i < |s| then s[i] else '\0'
  }

  function SkipBlanks(s: string, i: nat): (j: nat)
    requires i <= |s|
    ensures i <= j <= |s|
    decreases |s| - i
  {
    if i < |s| && Blank(s[i]) then SkipBlanks(s, i + 1) else i
  }

  /** The first comma from `i` on, or the end. */
  function FindComma(s: string, i: nat): (j: nat)
    requires i <= |s|
    ensures i <= j <= |s|
    decreases |s| - i
  {
    if i < |s| && s[i] != COMMA then FindComma(s, i + 1) else i
  }

  /** A quoted text from behind its opening quote, and where it ends: behind the closing quote or at the end. */
  function Unquote(s: string, i: nat): (r: (string, nat))
    requires i <= |s|
    ensures i + |r.0| <= r.1 <= |s|
    decreases |s| - i
  {
    if i == |s| then ("", i)
    else if s[i] != QUOTE then
      var (text, j) := Unquote(s, i + 1);
      ([s[i]] + text, j)
    else if At(s, i + 1) != QUOTE then ("", i + 1)
    else
      var (text, j) := Unquote(s, i + 2);
      ([QUOTE] + text, j)
  }

  /** One field: its text, the place behind the text in the buffer, and the comma that ends it or the end. */
  function Field(s: string, i: nat): (r: (string, nat, nat))
    requires i <= |s|
    ensures i <= r.1 <= r.2 <= |s|
  {
    var j := SkipBlanks(s, i);
    if At(s, j) == QUOTE then
      var (text, k) := Unquote(s, j + 1);
      (text, j + 1 + |text|, FindComma(s, k))
    else
      var k := FindComma(s, j);
      (s[j..k], k, k)
  }

  /** The fields from `i` on. A comma at the very end, right behind a text, makes one more, empty, field. */
  function Fields(s: string, i: nat): seq<string>
    decreases |s| - i
  {
    if i >= |s| then []
    else
      var (text, end, k) := Field(s, i);
      [text] + (if end == |s| - 1 && s[end] == COMMA then [""] else []) + Fields(s, k + 1)
  }

  lemma NoFields(s: string, i: nat)
    requires i >= |s|
    ensures Fields(s, i) == []
  {}

  // ---------------------------------------------------------------------------
  // The method
  // ---------------------------------------------------------------------------

  /** The part of the buffer from `i` on is still what it was. */
  ghost predicate Untouched(tmp: array<char>, input: string, i: nat)
    reads tmp
  {
    tmp.Length == |input| + 1 && forall p | i <= p <= |input| :: tmp[p] == At(input, p)
  }

  method Find(tmp: array<char>, from: nat, eos: nat, ghost input: string) returns (j: nat)
    requires from <= eos == |input| && Untouched(tmp, input, from)
    ensures j == FindComma(input, from)
  {
    j := from;
    while j < eos && tmp[j] != COMMA
      invariant from <= j <= eos && FindComma(input, j) == FindComma(input, from)
    {
      j := j + 1;
    }
  }

  /** The loop over a quoted field: moves its text to `start`, and stays behind what is read. */
  method UnquoteInPlace(tmp: array<char>, start: nat, eos: nat, ghost input: string) returns (end: nat, str: nat)
    requires start <= eos == |input| && Untouched(tmp, input, start)
    modifies tmp
    ensures start <= end <= str <= eos && (tmp[start..end], str) == Unquote(input, start)
    ensures Untouched(tmp, input, end)
  {
    hide Unquote;
    end, str := start, start;
    ghost var (text, stop) := Unquote(input, start);
    assert tmp[start..end] + text == text;
    while str < eos
      invariant start <= end <= str <= eos && Untouched(tmp, input, end)
      invariant text == tmp[start..end] + Unquote(input, str).0 && stop == Unquote(input, str).1
    {
      UnquoteStep(input, str);
      ghost var read, rest := tmp[start..end], Unquote(input, str).0;
      if tmp[str] == QUOTE {
        str := str + 1;
        if tmp[str] != QUOTE {
          assert rest == "" && text == read;
          return;
        }
      }
      tmp[end] := tmp[str];
      assert tmp[start..end + 1] == read + [At(input, str)];
      assert rest == [At(input, str)] + Unquote(input, str + 1).0;
      assert read + rest == read + [At(input, str)] + Unquote(input, str + 1).0;
      end, str := end + 1, str + 1;
    }
    UnquoteStep(input, str);
    assert text == tmp[start..end];
  }

  lemma UnquoteStep(s: string, i: nat)
    requires i <= |s|
    ensures i == |s| ==> Unquote(s, i) == ("", i)
    ensures i < |s| && s[i] != QUOTE ==>
              var (text, j) := Unquote(s, i + 1); Unquote(s, i) == ([s[i]] + text, j)
    ensures i < |s| && s[i] == QUOTE && At(s, i + 1) != QUOTE ==> Unquote(s, i) == ("", i + 1)
    ensures i < |s| && s[i] == QUOTE && At(s, i + 1) == QUOTE ==>
              i + 2 <= |s| && var (text, j) := Unquote(s, i + 2); Unquote(s, i) == ([QUOTE] + text, j)
  {}

  /** One round of the loop of SplitCSV, up to the comma or the end. */
  method ReadField(tmp: array<char>, from: nat, eos: nat, ghost input: string)
    returns (start: nat, end: nat, str: nat)
    requires from <= eos == |input| && Untouched(tmp, input, from)
    modifies tmp
    ensures start <= end <= str <= eos && (tmp[start..end], end, str) == Field(input, from)
    ensures Untouched(tmp, input, end)
  {
    hide Unquote, FindComma;
    str := from;
    while Blank(tmp[str])
      invariant from <= str <= eos && SkipBlanks(input, str) == SkipBlanks(input, from)
      decreases eos - str
    {
      str := str + 1;
    }
    hide SkipBlanks;
    if tmp[str] == QUOTE {
      start := str + 1;
      end, str := UnquoteInPlace(tmp, start, eos, input);
      str := Find(tmp, str, eos, input);
    } else {
      start := str;
      str := Find(tmp, start, eos, input);
      end := str;
      assert tmp[start..end] == input[start..end];
    }
  }

  method SplitCSV(input: string) returns (output: seq<string>)
    ensures output == Fields(input, 0)
  {
    hide Field, Fields;
    var eos := |input|;
    var tmp := new char[eos + 1](i requires 0 <= i <= eos => At(input, i));
    output := [];
    var str := 0;
    assert Fields(input, eos + 1) == [] && Fields(input, eos) == [] by { NoFields(input, eos); NoFields(input, eos + 1); }
    while str < eos
      invariant str <= eos + 1 && Untouched(tmp, input, str)
      invariant output + Fields(input, str) == Fields(input, 0)
      decreases eos - str
    {
      ghost var done, from := output, str;
      FieldsOneMore(input, str);
      var start, end;
      start, end, str := ReadField(tmp, str, eos, input);
      var endIsEmpty := tmp[end] == COMMA && end == eos - 1;
      output := output + [tmp[start..end]];
      if endIsEmpty {
        output := output + [""];
      }
      str := str + 1;
      assert output[|done|..] + Fields(input, str) == Fields(input, from);
      assert output + Fields(input, str) == done + (output[|done|..] + Fields(input, str));
    }
  }

  // ---------------------------------------------------------------------------
  // Writing fields and reading them back
  // ---------------------------------------------------------------------------

  /**
   A field as it can be written: with quotes, or as it is. Blanks may stand before it, and anything
   up to the comma behind its closing quote.
   */
  datatype Cell = Quoted(before: string, text: string, after: string) | Plain(before: string, text: string) {
    /** Only spaces and tabs stand before it, and it does not look like something else. */
    predicate Writable() {
      && (forall i | 0 <= i < |before| :: before[i] == ' ' || before[i] == '\t')
      && match this
         case Quoted(_, _, after) => ',' !in after && (after != "" ==> after[0] != '"')
         case Plain(_, text) => ',' !in text && (text != "" ==> text[0] != '"' && text[0] != ' ' && text[0] != '\t')
    }
  }

  const NO_CELL := Plain("", "")

  function Doubled(text: string): string {
    if text == "" then ""
    else (if text[0] == QUOTE then [QUOTE, QUOTE] else [text[0]]) + Doubled(text[1..])
  }

  function Write(cell: Cell): string {
    match cell
    case Quoted(before, text, after) => before + (['"'] + Doubled(text) + ['"'] + after)
    case Plain(before, text) => before + text
  }

  function Line(cells: seq<Cell>): string
    decreases |cells|
  {
    if cells == [] then ""
    else if |cells| == 1 then Write(cells[0])
    else Write(cells[0]) + [COMMA] + Line(cells[1..])
  }

  function Texts(cells: seq<Cell>): seq<string>
    decreases |cells|
  {
    if cells == [] then [] else [cells[0].text] + Texts(cells[1..])
  }

  /** The line ends in an empty plain field that stands alone or behind a quoted field. */
  predicate LosesLast(cells: seq<Cell>) {
    cells != [] && cells[|cells| - 1] == NO_CELL && (|cells| == 1 || cells[|cells| - 2].Quoted?)
  }

  /** What is read of a written line. */
  function Read(cells: seq<Cell>): seq<string> {
    if LosesLast(cells) then Texts(cells[..|cells| - 1]) else Texts(cells)
  }

  /** Unquoting text written with doubled quotes, wherever it stands. */
  lemma {:induction false} UnquoteDoubled(s: string, i: nat, text: string)
    requires i + |Doubled(text)| < |s|
    requires s[i..i + |Doubled(text)|] == Doubled(text) && s[i + |Doubled(text)|] == QUOTE
    requires At(s, i + |Doubled(text)| + 1) != QUOTE
    ensures Unquote(s, i) == (text, i + |Doubled(text)| + 1)
    decreases |text|
  {
    var d := Doubled(text);
    if text != "" {
      assert text == [text[0]] + text[1..];
      var step := if text[0] == QUOTE then 2 else 1;
      assert s[i] == s[i..i + |d|][0] == d[0];
      assert step == 2 ==> s[i + 1] == s[i..i + |d|][1] == d[1];
      assert s[i + step..i + step + |Doubled(text[1..])|] == d[step..];
      UnquoteDoubled(s, i + step, text[1..]);
    }
  }

  lemma {:induction false} FindAhead(s: string, i: nat, j: nat)
    requires i <= j <= |s| && (forall p | i <= p < j :: s[p] != COMMA) && (j == |s| || s[j] == COMMA)
    ensures FindComma(s, i) == j
    decreases j - i
  {
    if i < j {
      FindAhead(s, i + 1, j);
    }
  }

  lemma {:induction false} BlanksSkipped(s: string, i: nat, j: nat)
    requires i <= j <= |s| && (forall p | i <= p < j :: s[p] == ' ' || s[p] == '\t')
    requires j == |s| || (s[j] != ' ' && s[j] != '\t')
    ensures SkipBlanks(s, i) == j && SkipBlanks(s, j) == j
    decreases j - i
  {
    if i < j {
      BlanksSkipped(s, i + 1, j);
    }
  }

  lemma FieldBehindBlanks(s: string, i: nat, j: nat)
    requires i <= j <= |s| && SkipBlanks(s, i) == j == SkipBlanks(s, j)
    ensures Field(s, i) == Field(s, j)
  {
    hide SkipBlanks, Unquote, FindComma;
  }

  /** The field at `i`, when a written cell stands there up to a comma or the end. */
  lemma FieldReads(s: string, i: nat, cell: Cell)
    requires cell.Writable() && i + |Write(cell)| <= |s| && s[i..i + |Write(cell)|] == Write(cell)
    requires i + |Write(cell)| == |s| || s[i + |Write(cell)|] == COMMA
    ensures var (text, end, k) := Field(s, i);
            && text == cell.text && k == i + |Write(cell)|
            && (end == |s| - 1 && s[end] == COMMA <==> cell.Plain? && k == |s| - 1)
  {
    hide Field, SkipBlanks;
    var w, j := Write(cell), i + |cell.before|;
    var stop := i + |w|;
    forall p | i <= p < stop
      ensures s[p] == w[p - i]
    {
      assert s[i..stop][p - i] == w[p - i];
    }
    SliceOfSlice(s, i, stop, |cell.before|, |w|);
    assert s[j..stop] == w[|cell.before|..];
    forall p | i <= p < j
      ensures s[p] == ' ' || s[p] == '\t'
    {
      assert w[p - i] == cell.before[p - i];
    }
    match cell
    case Quoted(before, text, after) =>
      assert w[|before|..] == ['"'] + Doubled(text) + ['"'] + after;
      assert s[j] == w[|before|] == '"';
      BlanksSkipped(s, i, j);
      FieldBehindBlanks(s, i, j);
      QuotedReads(s, j, text, after);
    case Plain(before, text) =>
      assert w[|before|..] == text;
      assert j < stop ==> s[j] == w[|before|] == text[0];
      BlanksSkipped(s, i, j);
      FieldBehindBlanks(s, i, j);
      PlainReads(s, j, text);
  }

  lemma PlainReads(s: string, i: nat, text: string)
    requires Plain("", text).Writable() && i + |text| <= |s| && s[i..i + |text|] == text
    requires i + |text| == |s| || s[i + |text|] == COMMA
    ensures Field(s, i) == (text, i + |text|, i + |text|)
  {
    var stop := i + |text|;
    forall p | i <= p < stop
      ensures s[p] == text[p - i]
    {
      assert s[i..stop][p - i] == text[p - i];
    }
    FindAhead(s, i, stop);
    hide FindComma;
    assert SkipBlanks(s, i) == i;
    assert At(s, i) != QUOTE;
  }

  lemma QuotedReads(s: string, i: nat, text: string, after: string)
    requires Quoted("", text, after).Writable()
    requires var w := ['"'] + Doubled(text) + ['"'] + after; i + |w| <= |s| && s[i..i + |w|] == w
    requires var stop := i + 2 + |Doubled(text)| + |after|; stop == |s| || s[stop] == COMMA
    ensures var (t, end, k) := Field(s, i);
            && t == text && k == i + 2 + |Doubled(text)| + |after|
            && !(end == |s| - 1 && s[end] == COMMA)
  {
    hide Doubled, Field, FindComma, Unquote, SkipBlanks;
    var d := Doubled(text);
    var close := i + 1 + |d|;
    var stop := close + 1 + |after|;
    QuotedParts(s, i, d, after);
    assert close + 1 < |s| ==> s[close + 1] != QUOTE by {
      if after != "" {
        assert s[close + 1] == s[close + 1..stop][0] == after[0];
      }
    }
    forall p | close < p < stop
      ensures s[p] != COMMA
    {
      assert s[p] == s[close + 1..stop][p - close - 1] == after[p - close - 1];
    }
    QuotesRead(s, i, text, stop);
  }

  lemma QuotedParts(s: string, i: nat, d: string, after: string)
    requires var w := ['"'] + d + ['"'] + after; i + |w| <= |s| && s[i..i + |w|] == w
    ensures var close := i + 1 + |d|;
            && s[i] == '"' && s[i + 1..close] == d && s[close] == '"'
            && s[close + 1..close + 1 + |after|] == after
  {
    var w := ['"'] + d + ['"'] + after;
    var stop := i + |w|;
    assert s[i] == s[i..stop][0] && s[i + 1 + |d|] == s[i..stop][1 + |d|] == w[1 + |d|];
    SliceOfSlice(s, i, stop, 1, 1 + |d|);
    assert w[1..1 + |d|] == d;
    SliceOfSlice(s, i, stop, 2 + |d|, |w|);
    assert w[2 + |d|..] == after;
  }

  lemma SliceOfSlice(s: string, i: nat, j: nat, p: nat, q: nat)
    requires i <= j <= |s| && p <= q <= j - i
    ensures s[i..j][p..q] == s[i + p..i + q]
  {
    var t := s[i..j];
    forall k | 0 <= k < q - p
      ensures t[p..q][k] == s[i + p..i + q][k]
    {
      assert t[p..q][k] == t[p + k] == s[i + p + k];
    }
  }

  lemma QuotesRead(s: string, i: nat, text: string, stop: nat)
    requires var close := i + 1 + |Doubled(text)|;
             close < stop <= |s| && s[i] == QUOTE && s[i + 1..close] == Doubled(text) && s[close] == QUOTE
             && (forall p | close < p < stop :: s[p] != COMMA) && (stop == |s| || s[stop] == COMMA)
             && (close + 1 < |s| ==> s[close + 1] != QUOTE)
    ensures var (t, end, k) := Field(s, i);
            && t == text && k == stop
            && !(end == |s| - 1 && s[end] == COMMA)
  {
    var close := i + 1 + |Doubled(text)|;
    UnquoteDoubled(s, i + 1, text);
    DoubledIsLonger(text);
    FindAhead(s, close + 1, stop);
    hide Unquote, FindComma, Doubled;
    assert SkipBlanks(s, i) == i;
  }

  lemma {:induction false} DoubledIsLonger(text: string)
    ensures |text| <= |Doubled(text)|
  {
    if text != "" {
      DoubledIsLonger(text[1..]);
    }
  }

  /**
   Reading from where the line of `cells` starts, up to the end of `s`. What is read is the texts of
   the cells, without the last one if that is lost.
   */
  lemma {:induction false} FieldsRead(s: string, i: nat, cells: seq<Cell>)
    requires cells != [] && (forall c | c in cells :: c.Writable())
    requires i <= |s| && s[i..] == Line(cells)
    ensures Fields(s, i) == Read(cells)
    decreases |cells|
  {
    hide Field, Write, Line, Fields;
    var cell, rest := cells[0], cells[1..];
    CellOfLine(s, i, cells);
    FieldReads(s, i, cell);
    EmptyCell(cell);
    if |cells| == 1 {
      LastFieldReads(s, i, cell);
      assert cells == [cell] && cells[..0] == [];
    } else {
      hide Read;
      var stop := i + |Write(cell)|;
      FieldsRead(s, stop + 1, rest);
      NothingLeft(rest);
      FieldsOneMore(s, i);
      ReadMore(cells);
    }
  }

  lemma ReadMore(cells: seq<Cell>)
    requires |cells| > 1
    ensures var cell, rest := cells[0], cells[1..];
            Read(cells) == [cell.text] + (if cell.Plain? && rest == [NO_CELL] then [""] else []) + Read(rest)
  {
    var cell, rest := cells[0], cells[1..];
    assert cells[..|cells| - 1][1..] == rest[..|rest| - 1];
    if |rest| == 1 {
      LoneTexts(cell);
      LoneTexts(rest[0]);
      assert cells == [cell, rest[0]] && rest == [rest[0]] && cells[..1] == [cell] && rest[..0] == [];
    }
  }

  lemma LoneTexts(cell: Cell)
    ensures Texts([]) == [] && Texts([cell]) == [cell.text]
  {
    assert [cell][1..] == [];
  }

  lemma LastFieldReads(s: string, i: nat, cell: Cell)
    requires i <= |s| && i + |Write(cell)| == |s| && (|Write(cell)| == 0 <==> cell == NO_CELL)
    requires i < |s| ==> var (text, end, k) := Field(s, i);
                         text == cell.text && k == |s| && !(end == |s| - 1 && s[end] == COMMA)
    ensures Fields(s, i) == if cell == NO_CELL then [] else [cell.text]
    ensures Texts([cell]) == [cell.text]
  {
    hide Field, Write;
    assert Texts([cell][1..]) == [];
  }

  lemma EmptyCell(cell: Cell)
    ensures |Write(cell)| == 0 <==> cell == NO_CELL
  {}

  lemma FieldsOneMore(s: string, i: nat)
    requires i < |s|
    ensures var (text, end, k) := Field(s, i);
            Fields(s, i) == [text] + (if end == |s| - 1 && s[end] == COMMA then [""] else []) + Fields(s, k + 1)
  {
    hide Field;
  }

  /** Where the first cell of a line ends. */
  lemma CellOfLine(s: string, i: nat, cells: seq<Cell>)
    requires cells != [] && i <= |s| && s[i..] == Line(cells)
    ensures var stop := i + |Write(cells[0])|;
            && stop <= |s| && s[i..stop] == Write(cells[0])
            && (if |cells| == 1 then stop == |s|
                else stop < |s| && s[stop] == COMMA && s[stop + 1..] == Line(cells[1..]))
  {
    hide Write;
    var w, stop := Write(cells[0]), i + |Write(cells[0])|;
    assert |s| == i + |Line(cells)|;
    assert s[i..stop] == Line(cells)[..|w|] == w;
    if |cells| > 1 {
      assert s[stop] == Line(cells)[|w|] == COMMA;
      assert s[stop + 1..] == Line(cells)[|w| + 1..] == Line(cells[1..]);
    }
  }

  /** A line is empty only if it has no field but an empty plain one. */
  lemma NothingLeft(cells: seq<Cell>)
    requires cells != []
    ensures Line(cells) == "" <==> cells == [NO_CELL]
  {
    if |cells| == 1 && cells[0].Plain? {
      assert cells == [Plain(cells[0].before, cells[0].text)];
    }
  }

  lemma {:induction false} TextsLength(cells: seq<Cell>)
    ensures |Texts(cells)| == |cells|
    decreases |cells|
  {
    if cells != [] {
      TextsLength(cells[1..]);
    }
  }

  /**
   However fields are written, quoted or not, with spaces and tabs before them and anything behind
   the quotes, splitting the line gives exactly their texts if and only if the line does not end in
   an empty plain field, without blanks, alone or behind a quoted one.
   */
  lemma SplitUndoesWriting(cells: seq<Cell>)
    requires forall c | c in cells :: c.Writable()
    ensures Fields(Line(cells), 0) == Texts(cells) <==> !LosesLast(cells)
  {
    if cells != [] {
      assert Line(cells)[0..] == Line(cells);
      FieldsRead(Line(cells), 0, cells);
      TextsLength(cells);
      TextsLength(cells[..|cells| - 1]);
    }
  }

  /** The same fields without the blanks before them. */
  function Bare(cells: seq<Cell>): seq<Cell> {
    seq(|cells|, i requires 0 <= i < |cells| => cells[i].(before := ""))
  }

  lemma {:induction false} TextsOfBare(cells: seq<Cell>)
    ensures Texts(Bare(cells)) == Texts(cells)
    decreases |cells|
  {
    if cells != [] {
      assert Bare(cells)[1..] == Bare(cells[1..]);
      TextsOfBare(cells[1..]);
    }
  }

  /**
   Blanks before fields change nothing, but for one kind of line: without them it would lose an empty
   last field, and with blanks there it does not.
   */
  lemma BlanksChangeNothing(cells: seq<Cell>)
    requires forall c | c in cells :: c.Writable()
    ensures Fields(Line(cells), 0) == Fields(Line(Bare(cells)), 0)
       <==> !(LosesLast(Bare(cells)) && cells[|cells| - 1].before != "")
  {
    hide Line, Fields;
    var bare := Bare(cells);
    forall c | c in bare
      ensures c.Writable()
    {
      var i :| 0 <= i < |bare| && bare[i] == c;
      assert cells[i] in cells;
    }
    SplitUndoesWriting(cells);
    SplitUndoesWriting(bare);
    TextsOfBare(cells);
    if cells == [] {
      assert bare == cells;
    } else {
      assert LosesLast(cells) <==> LosesLast(bare) && cells[|cells| - 1].before == "";
      if LosesLast(cells) {
        LostAlike(cells);
      }
    }
  }

  lemma LostAlike(cells: seq<Cell>)
    requires (forall c | c in cells :: c.Writable()) && LosesLast(cells)
    requires (forall c | c in Bare(cells) :: c.Writable()) && LosesLast(Bare(cells))
    ensures Fields(Line(cells), 0) == Fields(Line(Bare(cells)), 0)
  {
    hide Line, Fields;
    LineReads(cells);
    LineReads(Bare(cells));
    TextsOfBare(cells[..|cells| - 1]);
    assert Bare(cells)[..|cells| - 1] == Bare(cells[..|cells| - 1]);
  }

  lemma LineReads(cells: seq<Cell>)
    requires cells != [] && forall c | c in cells :: c.Writable()
    ensures Fields(Line(cells), 0) == Read(cells)
  {
    hide Fields, Read;
    assert Line(cells)[0..] == Line(cells);
    FieldsRead(Line(cells), 0, cells);
  }

  function AllQuoted(texts: seq<string>): seq<Cell> {
    seq(|texts|, i requires 0 <= i < |texts| => Quoted("", texts[i], ""))
  }

  lemma {:induction false} TextsOfQuoted(texts: seq<string>)
    ensures Texts(AllQuoted(texts)) == texts
    decreases |texts|
  {
    if texts != [] {
      assert AllQuoted(texts)[1..] == AllQuoted(texts[1..]);
      TextsOfQuoted(texts[1..]);
    }
  }

  /** Any list of texts comes back when every one of them is quoted, whatever it contains. */
  lemma SplitUndoesQuoting(texts: seq<string>)
    ensures Fields(Line(AllQuoted(texts)), 0) == texts
  {
    SplitUndoesWriting(AllQuoted(texts));
    TextsOfQuoted(texts);
  }

  // ---------------------------------------------------------------------------
  // The extra field
  // ---------------------------------------------------------------------------

  /** Whether the quote opened before `i` is closed. */
  predicate Closed(s: string, i: nat)
    requires i <= |s|
    decreases |s| - i
  {
    i < |s| &&
    if s[i] != QUOTE then Closed(s, i + 1)
    else if At(s, i + 1) != QUOTE then true
    else Closed(s, i + 2)
  }

  /** How many doubled quotes there are up to the closing quote or the end. */
  function DoubledQuotes(s: string, i: nat): nat
    requires i <= |s|
    decreases |s| - i
  {
    if i == |s| then 0
    else if s[i] != QUOTE then DoubledQuotes(s, i + 1)
    else if At(s, i + 1) != QUOTE then 0
    else 1 + DoubledQuotes(s, i + 2)
  }

  /** Unquoting loses one character for every doubled quote and one for the closing quote, and stops behind that. */
  lemma {:induction false} UnquoteCounts(s: string, i: nat)
    requires i <= |s|
    ensures var (text, stop) := Unquote(s, i);
            && stop == i + |text| + DoubledQuotes(s, i) + (if Closed(s, i) then 1 else 0)
            && (if Closed(s, i) then stop > i && s[stop - 1] == QUOTE else stop == |s|)
    decreases |s| - i
  {
    UnquoteStep(s, i);
    hide Unquote;
    if i < |s| && s[i] != QUOTE {
      UnquoteCounts(s, i + 1);
    } else if i < |s| && At(s, i + 1) == QUOTE {
      UnquoteCounts(s, i + 2);
    }
  }

  /**
   A quoted field brings an extra, empty, field if and only if its quote is never closed, there is
   exactly one doubled quote in it, and the line ends in a comma.
   */
  lemma ExtraFieldIff(s: string, i: nat)
    requires i < |s| && At(s, SkipBlanks(s, i)) == QUOTE
    ensures var j := SkipBlanks(s, i) + 1; var (text, end, k) := Field(s, i);
            (end == |s| - 1 && s[end] == COMMA)
            <==> !Closed(s, j) && DoubledQuotes(s, j) == 1 && s[|s| - 1] == COMMA
  {
    var j := SkipBlanks(s, i) + 1;
    UnquoteCounts(s, j);
    hide Unquote, FindComma, SkipBlanks, Closed, DoubledQuotes;
  }

  /** What such a line is split into: the text without the doubling, and the extra field. */
  lemma ExtraFieldAdded(s: string, i: nat)
    requires i < |s| && At(s, SkipBlanks(s, i)) == QUOTE && !Closed(s, SkipBlanks(s, i) + 1)
    ensures var j := SkipBlanks(s, i) + 1; var text := Unquote(s, j).0;
            Fields(s, i) == if DoubledQuotes(s, j) == 1 && s[|s| - 1] == COMMA then [text, ""] else [text]
  {
    var j := SkipBlanks(s, i) + 1;
    ExtraFieldIff(s, i);
    UnquoteCounts(s, j);
    FieldsOneMore(s, i);
    NoFields(s, |s| + 1);
    hide Unquote, SkipBlanks, Closed, DoubledQuotes, Fields;
    assert FindComma(s, |s|) == |s|;
  }

  /** How many quotes a text contains. */
  function Quotes(text: string): nat {
    if text == "" then 0 else (if text[0] == '"' then 1 else 0) + Quotes(text[1..])
  }

  lemma {:induction false} UnquoteToEnd(s: string, i: nat, text: string)
    requires i <= |s| && s[i..] == Doubled(text)
    ensures Unquote(s, i) == (text, |s|) && !Closed(s, i) && DoubledQuotes(s, i) == Quotes(text)
    decreases |text|
  {
    UnquoteStep(s, i);
    hide Unquote;
    if text != "" {
      var rest := text[1..];
      assert s[i..][0] == s[i] && text == [text[0]] + rest;
      if text[0] == QUOTE {
        assert s[i..][1] == s[i + 1] && s[i + 2..] == s[i..][2..] == Doubled(rest);
        UnquoteToEnd(s, i + 2, rest);
      } else {
        assert s[i + 1..] == s[i..][1..] == Doubled(rest);
        UnquoteToEnd(s, i + 1, rest);
      }
    }
  }

  lemma {:induction false} LastOfDoubled(text: string)
    requires text != ""
    ensures Doubled(text) != "" && Doubled(text)[|Doubled(text)| - 1] == text[|text| - 1]
  {
    if |text| > 1 {
      LastOfDoubled(text[1..]);
    }
  }

  /**
   A text behind a quote that is never closed is read to the end of the line, and brings an extra
   field if and only if it contains exactly one quote and ends in a comma.
   */
  lemma UnclosedTextReads(before: string, text: string)
    requires forall i | 0 <= i < |before| :: before[i] == ' ' || before[i] == '\t'
    ensures Fields(before + ['"'] + Doubled(text), 0)
            == if Quotes(text) == 1 && text[|text| - 1] == ',' then [text, ""] else [text]
  {
    hide Fields, Unquote, Closed, DoubledQuotes, SkipBlanks, Doubled, Quotes;
    var s, j := before + ['"'] + Doubled(text), |before|;
    assert s[j] == '"' && s[j + 1..] == Doubled(text) && forall p | 0 <= p < j :: s[p] == before[p];
    BlanksSkipped(s, 0, j);
    UnclosedReads(s, j, text);
  }

  lemma UnclosedReads(s: string, j: nat, text: string)
    requires j < |s| && SkipBlanks(s, 0) == j && s[j] == '"' && s[j + 1..] == Doubled(text)
    ensures Fields(s, 0) == if Quotes(text) == 1 && text[|text| - 1] == ',' then [text, ""] else [text]
  {
    hide Fields, Unquote, Closed, DoubledQuotes, SkipBlanks, Doubled, Quotes;
    UnquoteToEnd(s, j + 1, text);
    ExtraFieldAdded(s, 0);
    if text == "" {
      NoQuotes();
    } else {
      LastOfDoubled(text);
      assert s[|s| - 1] == s[j + 1..][|Doubled(text)| - 1];
    }
  }

  lemma NoQuotes()
    ensures Quotes("") == 0
  {}

  /** Such a line. */
  lemma UnclosedQuoteAddsField()
    ensures Fields("\"a\"\"b,", 0) == ["a\"b,", ""]
  {
    var s := "\"a\"\"b,";
    assert Unquote(s, 6) == ("", 6);
    assert [s[5]] + "" == "," && Unquote(s, 5) == (",", 6);
    assert [s[4]] + "," == "b," && Unquote(s, 4) == ("b,", 6);
    assert [QUOTE] + "b," == "\"b," && Unquote(s, 2) == ("\"b,", 6);
    assert [s[1]] + "\"b," == "a\"b," && Unquote(s, 1) == ("a\"b,", 6);
    assert Fields(s, 7) == [];
  }
}
