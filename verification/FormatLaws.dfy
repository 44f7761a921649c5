// What `proef fmt` promises about whole texts: a fixed point, and conservation.
module FormatLaws {
  import opened Sequences
  import opened PackFormat

  // ----- lines and text determine each other

  lemma FindLfAt(s: string, i: nat)
    requires i < |s| && s[i] == '\n' && '\n' !in s[..i]
    ensures FindLf(s) == i
  {
    var j := FindLf(s);
    assert forall k :: 0 <= k < j ==> s[k] == s[..j][k];
    assert forall k :: 0 <= k < i ==> s[k] == s[..i][k];
  }

  lemma LineToText(text: string, i: nat)
    requires i < |text| && text[i] == '\n'
    ensures LineTo(text, i).Text() == text[..i + 1]
  {
    if i > 0 && text[i - 1] == '\r' {
      assert text[..i + 1] == text[..i - 1] + "\r\n";
    } else {
      assert text[..i + 1] == text[..i] + "\n";
    }
  }

  lemma JoinCons(line: Line, lines: seq<Line>)
    ensures Join([line] + lines) == line.Text() + Join(lines)
  {
    assert ([line] + lines)[1..] == lines;
  }

  lemma JoinOneMore(text: string, i: nat, lines: seq<Line>)
    requires i < |text| && text[i] == '\n' && Join(lines) == text[i + 1..]
    ensures Join([LineTo(text, i)] + lines) == text
  {
    LineToText(text, i);
    JoinCons(LineTo(text, i), lines);
    assert text == text[..i + 1] + text[i + 1..];
  }

  /** Splitting a text and joining its lines gives it back. */
  lemma {:induction false} JoinLines(text: string)
    ensures Join(Lines(text)) == text
    decreases |text|
  {
    if text != [] {
      var i := FindLf(text);
      if i < |text| {
        JoinLines(text[i + 1..]);
        JoinOneMore(text, i, Lines(text[i + 1..]));
      } else {
        JoinOne(Line(text, Bare));
      }
    }
  }

  lemma JoinOne(line: Line)
    ensures Join([line]) == line.Text()
    ensures line.ending == Bare ==> line.Text() == line.content
  {
    assert [line][1..] == [];
    assert line.Text() + [] == line.Text() && (line.ending == Bare ==> line.Text() == line.content);
  }

  predicate EndsCr(s: string) {
    s != [] && s[|s| - 1] == '\r'
  }

  /** A line that splitting can produce, at the end of a text or before it. */
  predicate SoundLine(line: Line, last: bool) {
    && '\n' !in line.content
    && (line.ending == Lf ==> !EndsCr(line.content))
    && (line.ending == Bare ==> last && line.content != "")
  }

  predicate SoundLines(lines: seq<Line>) {
    lines == [] || (SoundLine(lines[0], |lines| == 1) && SoundLines(lines[1..]))
  }

  lemma SoundCons(line: Line, lines: seq<Line>)
    requires SoundLine(line, false) && SoundLines(lines)
    ensures SoundLines([line] + lines)
  {
    assert ([line] + lines)[1..] == lines;
  }

  lemma {:induction false} LinesSound(text: string)
    ensures SoundLines(Lines(text))
    decreases |text|
  {
    if text != [] {
      var i := FindLf(text);
      if i < |text| {
        LinesSound(text[i + 1..]);
        var line := LineTo(text, i);
        assert forall c :: c in line.content ==> c in text[..i];
        SoundCons(line, Lines(text[i + 1..]));
      } else {
        assert text == text[..i];
        assert Lines(text)[1..] == [];
      }
    }
  }

  lemma FirstLine(line: Line, rest: string)
    requires SoundLine(line, rest == "")
    ensures var text := line.Text() + rest;
            if line.ending == Bare then rest == "" ==> FindLf(text) == |text| && text == line.content
            else FindLf(text) < |text| && LineTo(text, FindLf(text)) == line && text[FindLf(text) + 1..] == rest
  {
    var text := line.Text() + rest;
    if line.ending == Bare {
      if rest == "" {
        assert text == line.content;
      }
    } else {
      var i := |line.Text()| - 1;
      assert text[..i] == line.Text()[..i];
      assert line.ending == CrLf ==> text[..i] == line.content + "\r";
      assert line.ending == Lf ==> text[..i] == line.content;
      FindLfAt(text, i);
      assert i > 0 ==> text[i - 1] == text[..i][i - 1];
      assert text[i + 1..] == rest;
      assert line.ending == CrLf ==> text[..i - 1] == line.content;
    }
  }

  lemma {:induction false} JoinNonEmpty(lines: seq<Line>)
    requires SoundLines(lines) && lines != []
    ensures Join(lines) != ""
  {
    assert lines[0].Text() != "";
  }

  lemma LinesCons(line: Line, rest: string)
    requires SoundLine(line, rest == "") && line.Text() + rest != ""
    ensures Lines(line.Text() + rest) == [line] + Lines(rest)
  {
    FirstLine(line, rest);
    if line.ending == Bare {
      assert [line] + Lines(rest) == [line];
    }
  }

  lemma LinesJoinCons(line: Line, rest: seq<Line>)
    requires SoundLine(line, rest == []) && SoundLines(rest) && Lines(Join(rest)) == rest
    ensures Lines(Join([line] + rest)) == [line] + rest
  {
    JoinCons(line, rest);
    if rest != [] {
      JoinNonEmpty(rest);
    }
    LinesCons(line, Join(rest));
  }

  /** Joining lines that splitting can produce and splitting again gives them back. */
  lemma {:induction false} LinesJoin(lines: seq<Line>)
    requires SoundLines(lines)
    ensures Lines(Join(lines)) == lines
    decreases |lines|
  {
    if lines != [] {
      LinesJoin(lines[1..]);
      LinesJoinCons(lines[0], lines[1..]);
      assert lines == [lines[0]] + lines[1..];
    }
  }

  // ----- the formatter's lines are sound

  lemma TrimmedSound(line: Line, last: bool)
    requires SoundLine(line, last) && !IsBlank(line.content)
    ensures SoundLine(Trimmed(line), last)
  {
    TrimEndFacts(line.content);
    TrimEndKeeps(line.content);
    assert forall c :: c in TrimEnd(line.content) ==> c in line.content;
  }

  /** One line's output in front of sound output. */
  lemma OneLineSound(s: State, line: Line, rest: seq<Line>, after: seq<Line>)
    requires SoundLine(line, rest == []) && Proper(s) && SoundLines(after) && (rest == [] ==> after == [])
    requires s.Inside? && s.held != [] ==> s.held[0].ending != Bare
    ensures SoundLines(Emitted(s, line) + after)
  {
    FenceNotBlank(line.content);
    if Verbatim(s, line) {
      LineBefore(line, rest, after);
    } else if IsBlank(line.content) {
      assert [] + after == after;
    } else {
      TrimmedSound(line, rest == []);
      LineBefore(Trimmed(line), rest, after);
      if s.held == [] {
        assert [] + [Trimmed(line)] + after == [Trimmed(line)] + after;
      } else {
        SoundCons(s.held[0], [Trimmed(line)] + after);
        assert s.held == [s.held[0]];
        Reassociate(s.held, [Trimmed(line)], after);
      }
    }
  }

  lemma {:induction false} EmitSound(s: State, lines: seq<Line>)
    requires SoundLines(lines) && Proper(s)
    requires s.Inside? && s.held != [] && lines != [] ==> s.held[0].ending != Bare
    ensures SoundLines(Emit(s, lines))
    decreases |lines|
  {
    if lines != [] {
      var line, rest := lines[0], lines[1..];
      ProperNext(s, line);
      EmitSound(Next(s, line), rest);
      OneLineSound(s, line, rest, Emit(Next(s, line), rest));
    }
  }

  /** A line in front of what the rest turned into. */
  lemma LineBefore(line: Line, rest: seq<Line>, after: seq<Line>)
    requires SoundLine(line, rest == []) && SoundLines(after) && (rest == [] ==> after == [])
    ensures SoundLines([line] + after)
  {
    assert ([line] + after)[1..] == after;
  }

  // ----- the final newline

  /** The finished lines as splitting sees them: a bare `\r` merges with a supplied line feed. */
  function Settle(lines: seq<Line>, e: Ending): seq<Line> {
    if lines == [] || lines[|lines| - 1].ending != Bare then lines
    else
      var n := |lines| - 1;
      var content := lines[n].content;
      lines[n := if e == Lf && EndsCr(content) then Line(content[..|content| - 1], CrLf) else Line(content, e)]
  }

  lemma {:induction false} SettleJoins(lines: seq<Line>, e: Ending)
    ensures Join(Settle(lines, e)) == Join(Finish(lines, e))
    decreases |lines|
  {
    if |lines| == 1 {
      var a, b := Settle(lines, e), Finish(lines, e);
      assert a[1..] == b[1..];
      var content := lines[0].content;
      if lines[0].ending == Bare && e == Lf && EndsCr(content) {
        assert content == content[..|content| - 1] + "\r";
        assert a[0].Text() == b[0].Text();
      }
    } else if |lines| > 1 {
      SettleJoins(lines[1..], e);
      assert Settle(lines, e)[1..] == Settle(lines[1..], e);
      assert Finish(lines, e)[1..] == Finish(lines[1..], e);
    }
  }

  lemma {:induction false} SettleSound(lines: seq<Line>, e: Ending)
    requires SoundLines(lines) && e != Bare
    ensures SoundLines(Settle(lines, e))
    ensures lines != [] ==> Settle(lines, e) != [] && Settle(lines, e)[|lines| - 1].ending != Bare
    decreases |lines|
  {
    if |lines| == 1 {
      assert Settle(lines, e)[1..] == [];
    } else if |lines| > 1 {
      SettleSound(lines[1..], e);
      assert Settle(lines, e)[1..] == Settle(lines[1..], e);
    }
  }

  lemma TrimEndShorter(s: string)
    requires s != [] && IsWhite(s[|s| - 1])
    ensures TrimEnd(s) != s
  {
    TrimEndFacts(s[..|s| - 1]);
  }

  /** The last line of a text, once terminated. */
  lemma SettledLineTidy(s: State, line: Line, content: string, ending: Ending)
    requires Proper(s) && TidyLine(s, line) && Tidy(Next(s, line), [])
    requires content == line.content || (EndsCr(line.content) && content == line.content[..|line.content| - 1])
    ensures TidyLine(s, Line(content, ending)) && Tidy(Next(s, Line(content, ending)), [])
  {
    FenceNotBlank(line.content);
    if content != line.content {
      DropWhite(line.content);
      TrimEndShorter(line.content);
      assert Verbatim(s, line) && Verbatim(s, Line(content, ending));
    }
  }

  lemma SettleCons(line: Line, rest: seq<Line>, e: Ending)
    requires rest != []
    ensures Settle([line] + rest, e) == [line] + Settle(rest, e)
  {
  }

  /** Supplying the final newline leaves tidy lines tidy. */
  lemma {:induction false} SettleTidy(s: State, lines: seq<Line>, e: Ending)
    requires Proper(s) && Tidy(s, lines)
    ensures Tidy(s, Settle(lines, e))
    decreases |lines|
  {
    if lines != [] {
      var line, rest := lines[0], lines[1..];
      assert lines == [line] + rest;
      TidyCons(s, line, rest);
      if rest == [] {
        SettleOneTidy(s, line, e);
      } else {
        ProperNext(s, line);
        SettleTidy(Next(s, line), rest, e);
        SettleCons(line, rest, e);
        TidyCons(s, line, Settle(rest, e));
      }
    }
  }

  lemma ProperNext(s: ProperState, line: Line)
    ensures Proper(Next(s, line))
  {
    FenceNotBlank(line.content);
  }

  lemma SettleOneTidy(s: State, line: Line, e: Ending)
    requires Proper(s) && TidyLine(s, line) && Tidy(Next(s, line), [])
    ensures Tidy(s, Settle([line], e))
  {
    var last := Settle([line], e)[0];
    assert Settle([line], e) == [last] + [];
    SettledLineTidy(s, line, last.content, last.ending);
    TidyCons(s, last, []);
  }

  /** The lines of the formatted text. */
  function FinalLines(text: string): seq<Line> {
    Settle(Emit(Outside, Lines(text)), Dominant(text))
  }

  lemma FinalLinesSound(text: string)
    ensures SoundLines(FinalLines(text)) && Tidy(Outside, FinalLines(text))
    ensures forall e :: Finish(FinalLines(text), e) == FinalLines(text)
  {
    var out, e := Emit(Outside, Lines(text)), Dominant(text);
    LinesSound(text);
    EmitSound(Outside, Lines(text));
    SettleSound(out, e);
    EmitTidy(Outside, Lines(text));
    SettleTidy(Outside, out, e);
  }

  lemma NormalizedHasFinalLines(text: string)
    ensures Normalized(text) == Join(FinalLines(text)) && Lines(Normalized(text)) == FinalLines(text)
  {
    SettleJoins(Emit(Outside, Lines(text)), Dominant(text));
    FinalLinesSound(text);
    LinesJoin(FinalLines(text));
  }

  // ----- the laws

  lemma UnchangedLines(text: string, lines: seq<Line>)
    requires Lines(text) == lines && Emit(Outside, lines) == lines && Finish(lines, Dominant(text)) == lines
    ensures Normalized(text) == Join(lines)
  {
  }

  lemma TidyTextKept(text: string, lines: seq<Line>)
    requires Lines(text) == lines && Tidy(Outside, lines) && Finish(lines, Dominant(text)) == lines
    ensures Normalized(text) == text
  {
    UnchangedIffTidy(lines);
    UnchangedLines(text, lines);
    JoinLines(text);
  }

  /** Formatting twice is formatting once, on every text. */
  lemma Idempotent(text: string)
    ensures Normalized(Normalized(text)) == Normalized(text)
  {
    NormalizedHasFinalLines(text);
    FinalLinesSound(text);
    TidyTextKept(Normalized(text), FinalLines(text));
  }

  predicate EndsLf(s: string) {
    s == [] || s[|s| - 1] == '\n'
  }

  lemma LastCharOf(a: string, b: string)
    requires b != ""
    ensures EndsLf(a + b) <==> EndsLf(b)
  {
    assert (a + b)[|a + b| - 1] == b[|b| - 1];
  }

  lemma {:induction false} EndsLfIffTerminated(lines: seq<Line>)
    requires SoundLines(lines) && lines != []
    ensures EndsLf(Join(lines)) <==> lines[|lines| - 1].ending != Bare
    decreases |lines|
  {
    var line, rest := lines[0], lines[1..];
    if rest == [] {
      assert Join(lines) == line.Text();
      assert line.ending == Bare ==> line.content[|line.content| - 1] in line.content;
    } else {
      EndsLfIffTerminated(rest);
      JoinNonEmpty(rest);
      LastCharOf(line.Text(), Join(rest));
    }
  }

  lemma TextEndsLf(text: string)
    ensures text == [] <==> Lines(text) == []
    ensures text != [] ==> (EndsLf(text) <==> Lines(text)[|Lines(text)| - 1].ending != Bare)
  {
    LinesSound(text);
    JoinLines(text);
    if text != [] {
      EndsLfIffTerminated(Lines(text));
    }
  }

  lemma FinalLinesTerminated(text: string)
    ensures FinalLines(text) == [] || FinalLines(text)[|FinalLines(text)| - 1].ending != Bare
  {
    LinesSound(text);
    EmitSound(Outside, Lines(text));
    SettleSound(Emit(Outside, Lines(text)), Dominant(text));
  }

  /** What the formatter writes is tidy and terminated. */
  lemma NormalizedIsCanonical(text: string)
    ensures Tidy(Outside, Lines(Normalized(text))) && EndsLf(Normalized(text))
  {
    NormalizedHasFinalLines(text);
    FinalLinesSound(text);
    FinalLinesTerminated(text);
    TextEndsLf(Normalized(text));
  }

  /**
   * What `--check` calls canonical: exactly the texts that end in a newline
   * (or are empty) and whose blocks are tidy.
   */
  lemma UnchangedIffCanonical(text: string)
    ensures Normalized(text) == text <==> Tidy(Outside, Lines(text)) && EndsLf(text)
  {
    if Tidy(Outside, Lines(text)) && EndsLf(text) {
      CanonicalKept(text);
    }
    NormalizedIsCanonical(text);
  }

  lemma CanonicalKept(text: string)
    requires Tidy(Outside, Lines(text)) && EndsLf(text)
    ensures Normalized(text) == text
  {
    TextEndsLf(text);
    TidyTextKept(text, Lines(text));
  }

  // ----- conservation

  /** What survives of a line: all of it, or, in a block and outside fences, its text. */
  datatype Part = Whole(line: Line) | Text(line: Line)

  function PartOf(s: State, line: Line): seq<Part> {
    if Verbatim(s, line) then [Whole(line)]
    else if IsBlank(line.content) then []
    else [Text(Trimmed(line))]
  }

  function Essence(s: State, lines: seq<Line>): seq<Part>
    decreases |lines|
  {
    if lines == [] then [] else PartOf(s, lines[0]) + Essence(Next(s, lines[0]), lines[1..])
  }

  lemma EssenceCons(s: State, line: Line, rest: seq<Line>)
    ensures Essence(s, [line] + rest) == PartOf(s, line) + Essence(Next(s, line), rest)
  {
    assert ([line] + rest)[1..] == rest;
  }

  /** A blank line held back or not, the parts are the same. */
  lemma {:induction false} EssenceIgnoresHeld(s: State, lines: seq<Line>)
    ensures Essence(Dropped(s), lines) == Essence(s, lines)
    decreases |lines|
  {
    if lines != [] {
      var n1, n2 := Next(Dropped(s), lines[0]), Next(s, lines[0]);
      EssenceIgnoresHeld(n1, lines[1..]);
      EssenceIgnoresHeld(n2, lines[1..]);
      assert Dropped(n1) == Dropped(n2);
    }
  }

  /**
   * Conservation: skeleton lines and fenced lines come back whole, with their own
   * terminators, and a block's other non-blank lines come back in order up to
   * trailing whitespace.
   */
  lemma {:induction false} EmitConserves(s: ProperState, lines: seq<Line>)
    ensures Essence(Dropped(s), Emit(s, lines)) == Essence(s, lines)
    decreases |lines|
  {
    if lines != [] {
      var line, rest := lines[0], lines[1..];
      var after := Emit(Next(s, line), rest);
      FenceNotBlank(line.content);
      EmitConserves(Next(s, line), rest);
      if Verbatim(s, line) {
        EssenceCons(Dropped(s), line, after);
      } else if IsBlank(line.content) {
        assert Emit(s, lines) == after;
        assert Dropped(Next(s, line)) == Dropped(s);
        assert Essence(s, lines) == Essence(Next(s, line), rest);
      } else {
        TextConserved(s, line, after);
      }
    }
  }

  /** A blank line held back adds no part. */
  lemma HeldConserved(s: State, more: seq<Line>)
    requires Proper(s) && s.Inside? && !s.fence
    ensures Essence(Dropped(s), s.held + more) == Essence(s, more)
  {
    if s.held == [] {
      assert s.held + more == more;
    } else {
      var h := s.held[0];
      FenceNotBlank(h.content);
      assert s.held == [h] && Next(Dropped(s), h) == s;
      EssenceCons(Dropped(s), h, more);
    }
  }

  lemma TextConserved(s: State, line: Line, after: seq<Line>)
    requires Proper(s) && !Verbatim(s, line) && !IsBlank(line.content)
    ensures Essence(Dropped(s), s.held + [Trimmed(line)] + after)
         == [Text(Trimmed(line))] + Essence(Next(s, line), after)
  {
    TrimmedStep(s, line);
    Reassociate(s.held, [Trimmed(line)], after);
    HeldConserved(s, [Trimmed(line)] + after);
    EssenceCons(s, Trimmed(line), after);
  }

  /** A part as it stands once the text's last line has its newline. */
  function Supplied(part: Part, e: Ending): Part {
    match part
    case Whole(line) => Whole(Settle([line], e)[0])
    case Text(line) => Text(Settle([line], e)[0])
  }

  function SupplyAll(parts: seq<Part>, e: Ending): (r: seq<Part>)
    ensures |r| == |parts| && forall i :: 0 <= i < |parts| ==> r[i] == Supplied(parts[i], e)
  {
    seq(|parts|, i requires 0 <= i < |parts| => Supplied(parts[i], e))
  }

  lemma PartsSplit(a: seq<Part>, b: seq<Part>, e: Ending)
    ensures SupplyAll(a + b, e) == SupplyAll(a, e) + SupplyAll(b, e)
  {
  }

  /** A terminated line's parts need no newline. */
  lemma TerminatedPart(s: State, line: Line, e: Ending)
    requires line.ending != Bare
    ensures SupplyAll(PartOf(s, line), e) == PartOf(s, line)
  {
  }

  /** The last line: its part gets the newline its text gets. */
  lemma LastPart(s: State, line: Line, e: Ending)
    requires Proper(s) && TidyLine(s, line)
    ensures PartOf(s, Settle([line], e)[0]) == SupplyAll(PartOf(s, line), e)
  {
    if line.ending == Bare && e == Lf && EndsCr(line.content) {
      DropWhite(line.content);
      TrimEndShorter(line.content);
    }
    FenceNotBlank(line.content);
  }

  lemma LastLineConserves(s: State, line: Line, e: Ending)
    requires Proper(s) && TidyLine(s, line)
    ensures Essence(s, Settle([line], e)) == SupplyAll(Essence(s, [line]), e)
  {
    var last := Settle([line], e)[0];
    LastPart(s, line, e);
    assert Settle([line], e) == [last] && [last] == [last] + [] && [line] == [line] + [];
    EssenceCons(s, last, []);
    EssenceCons(s, line, []);
    assert PartOf(s, last) + [] == PartOf(s, last) && PartOf(s, line) + [] == PartOf(s, line);
  }

  lemma EarlierLineConserves(s: State, line: Line, rest: seq<Line>, e: Ending)
    requires line.ending != Bare && rest != []
    requires Essence(Next(s, line), Settle(rest, e)) == SupplyAll(Essence(Next(s, line), rest), e)
    ensures Essence(s, Settle([line] + rest, e)) == SupplyAll(Essence(s, [line] + rest), e)
  {
    TerminatedPart(s, line, e);
    PartsSplit(PartOf(s, line), Essence(Next(s, line), rest), e);
    SettleCons(line, rest, e);
    EssenceCons(s, line, Settle(rest, e));
    EssenceCons(s, line, rest);
  }

  lemma FirstAndRest(s: State, lines: seq<Line>)
    requires lines != [] && Proper(s) && Tidy(s, lines) && SoundLines(lines)
    ensures lines == [lines[0]] + lines[1..]
    ensures Proper(Next(s, lines[0])) && Tidy(Next(s, lines[0]), lines[1..]) && SoundLines(lines[1..])
  {
    ProperNext(s, lines[0]);
  }

  /** Supplying the final newline adds it to the last part and changes nothing else. */
  lemma {:induction false} SettleConserves(s: State, lines: seq<Line>, e: Ending)
    requires Proper(s) && Tidy(s, lines) && SoundLines(lines)
    ensures Essence(s, Settle(lines, e)) == SupplyAll(Essence(s, lines), e)
    decreases |lines|, 1
  {
    if |lines| == 1 {
      assert lines == [lines[0]];
      LastLineConserves(s, lines[0], e);
    } else if |lines| > 1 {
      EarlierConserves(s, lines, e);
    }
  }

  lemma {:induction false} EarlierConserves(s: State, lines: seq<Line>, e: Ending)
    requires |lines| > 1 && Proper(s) && Tidy(s, lines) && SoundLines(lines)
    ensures Essence(s, Settle(lines, e)) == SupplyAll(Essence(s, lines), e)
    decreases |lines|, 0
  {
    FirstAndRest(s, lines);
    SettleConserves(Next(s, lines[0]), lines[1..], e);
    EarlierLineConserves(s, lines[0], lines[1..], e);
  }

  /** On every text, formatting conserves every part; a missing final newline is supplied. */
  lemma NormalizedConserves(text: string)
    ensures Essence(Outside, Lines(Normalized(text))) == SupplyAll(Essence(Outside, Lines(text)), Dominant(text))
  {
    var lines := Lines(text);
    LinesSound(text);
    EmitSound(Outside, lines);
    EmitTidy(Outside, lines);
    EmitConserves(Outside, lines);
    SettleConserves(Outside, Emit(Outside, lines), Dominant(text));
    NormalizedHasFinalLines(text);
  }

  lemma {:induction false} TerminatedParts(s: State, lines: seq<Line>, e: Ending)
    requires SoundLines(lines) && (lines == [] || lines[|lines| - 1].ending != Bare)
    ensures SupplyAll(Essence(s, lines), e) == Essence(s, lines)
    decreases |lines|
  {
    if lines != [] {
      TerminatedPart(s, lines[0], e);
      TerminatedParts(Next(s, lines[0]), lines[1..], e);
      PartsSplit(PartOf(s, lines[0]), Essence(Next(s, lines[0]), lines[1..]), e);
    }
  }

  /** On a text that ends in a newline, no part changes at all. */
  lemma TerminatedConserved(text: string)
    requires EndsLf(text)
    ensures Essence(Outside, Lines(Normalized(text))) == Essence(Outside, Lines(text))
  {
    NormalizedConserves(text);
    LinesSound(text);
    TextEndsLf(text);
    TerminatedParts(Outside, Lines(text), Dominant(text));
  }
}
