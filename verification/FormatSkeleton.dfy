// What `proef fmt` does to the lines YAML keeps outside the `hurl` blocks.
module FormatSkeleton {
  import opened Sequences
  import opened PackFormat
  import opened FormatLaws
  import opened Utf8

  // ----- YAML's own blocks

  predicate InListItem(line: string) {
    StartsWith(TrimStart(line), "- ")
  }

  /** The text after a list item's dash. */
  function AfterDash(line: string): string {
    if InListItem(line) then TrimStart(line)[1..] else TrimStart(line)
  }

  /** The column of a line's key: past the dash and its blanks in a list item. */
  function KeyColumn(line: string): nat {
    if InListItem(line) then Indent(line) + 1 + Indent(AfterDash(line)) else Indent(line)
  }

  function AfterColon(s: string): string {
    if s == [] then [] else if s[0] == ':' then s[1..] else AfterColon(s[1..])
  }

  predicate EndsOrComment(s: string) {
    s == [] || s[0] == '#'
  }

  /** `|` or `>`, chomping and indentation indicators, and at most a comment. */
  predicate IsIndicator(s: string) {
    s != [] && (s[0] == '|' || s[0] == '>') && EndsOrComment(TrimStart(SkipDigits(SkipSigns(s[1..]))))
  }

  predicate ScalarKey(key: string) {
    key != [] && key[0] != '#' && IsIndicator(TrimStart(AfterColon(key)))
  }

  /** A key, not a comment, whose value is a block scalar. */
  predicate OpensScalar(line: string) {
    ScalarKey(TrimStart(AfterDash(line)))
  }

  /**
   * Where YAML stands: in the structure, in a `hurl` block whose key is at
   * `column`, or in some other key's block scalar. A line that looks like a
   * `hurl` header inside another scalar is that scalar's text.
   */
  datatype Yaml = Structure | HurlBlock(column: nat) | Scalar(column: nat)

  predicate Continues(y: Yaml, line: Line) {
    !y.Structure? && (IsBlank(line.content) || Indent(line.content) > y.column)
  }

  function YamlNext(y: Yaml, line: Line): Yaml {
    if Continues(y, line) then y
    else if IsHeader(line.content) then HurlBlock(KeyColumn(line.content))
    else if OpensScalar(line.content) then Scalar(KeyColumn(line.content))
    else Structure
  }

  /** Is the line outside every `hurl` block, as YAML reads the text? */
  predicate IsSkeleton(y: Yaml, line: Line) {
    !(y.HurlBlock? && Continues(y, line))
  }

  /** The lines outside the `hurl` blocks. */
  function SkeletonLines(y: Yaml, lines: seq<Line>): seq<Line>
    decreases |lines|
  {
    if lines == [] then []
    else
      var rest := SkeletonLines(YamlNext(y, lines[0]), lines[1..]);
      if IsSkeleton(y, lines[0]) then [lines[0]] + rest else rest
  }

  // ----- which of them the formatter leaves alone

  /** Does the block go on past its blank lines? */
  predicate GoesOn(key: nat, lines: seq<Line>)
    decreases |lines|
  {
    lines != [] && if IsBlank(lines[0].content) then GoesOn(key, lines[1..]) else Indent(lines[0].content) > key
  }

  /**
   * Nothing to normalize on a line, `rest` following: it is no body line to the formatter,
   * or it is fenced, or its text has no trailing whitespace, or it is an empty
   * line, the first of its run, in a block that goes on.
   */
  predicate Spared(s: State, line: Line, rest: seq<Line>) {
    if Verbatim(s, line) then true
    else if IsBlank(line.content) then line.content == "" && s.held == [] && GoesOn(s.key, rest)
    else TrimEnd(line.content) == line.content
  }

  /** Nothing to normalize on any skeleton line. */
  predicate SkeletonSpared(s: State, y: Yaml, lines: seq<Line>)
    decreases |lines|
  {
    lines != [] ==>
      && (IsSkeleton(y, lines[0]) ==> Spared(s, lines[0], lines[1..]))
      && SkeletonSpared(Next(s, lines[0]), YamlNext(y, lines[0]), lines[1..])
  }

  // ----- trimming a line leaves its part in YAML alone

  type White = c: char | IsWhite(c) witness ' '

  lemma TrimStartMore(s: string, c: White)
    ensures TrimStart(s + [c]) == if TrimStart(s) == [] then [] else TrimStart(s) + [c]
  {
    var t := s + [c];
    assert t[..|t| - 1] == s;
    DropWhite(t);
  }

  lemma {:induction false} SkipSignsMore(s: string, c: White)
    ensures SkipSigns(s + [c]) == SkipSigns(s) + [c]
  {
    if s == [] {
      assert [c][0] == c;
    } else {
      assert (s + [c])[1..] == s[1..] + [c];
      SkipSignsMore(s[1..], c);
    }
  }

  lemma {:induction false} SkipDigitsMore(s: string, c: White)
    ensures SkipDigits(s + [c]) == SkipDigits(s) + [c]
  {
    if s == [] {
      assert [c][0] == c;
    } else {
      assert (s + [c])[1..] == s[1..] + [c];
      SkipDigitsMore(s[1..], c);
    }
  }

  lemma {:induction false} AfterColonMore(s: string, c: White)
    ensures TrimStart(AfterColon(s + [c])) == TrimStart(AfterColon(s))
         || (TrimStart(AfterColon(s)) != [] && TrimStart(AfterColon(s + [c])) == TrimStart(AfterColon(s)) + [c])
  {
    if s == [] {
      assert (s + [c])[1..] == [];
    } else {
      assert (s + [c])[1..] == s[1..] + [c];
      if s[0] == ':' {
        TrimStartMore(s[1..], c);
      } else {
        AfterColonMore(s[1..], c);
      }
    }
  }

  lemma TailMore(s: string, c: White)
    ensures EndsOrComment(TrimStart(SkipDigits(SkipSigns(s + [c]))))
       <==> EndsOrComment(TrimStart(SkipDigits(SkipSigns(s))))
  {
    SkipSignsMore(s, c);
    SkipDigitsMore(SkipSigns(s), c);
    TrimStartMore(SkipDigits(SkipSigns(s)), c);
  }

  lemma IndicatorMore(s: string, c: White)
    requires s != []
    ensures IsIndicator(s + [c]) <==> IsIndicator(s)
  {
    assert (s + [c])[1..] == s[1..] + [c];
    TailMore(s[1..], c);
  }

  predicate HeaderKey(key: string) {
    StartsWith(key, "hurl:") &&
    var rest := TrimStart(key[5..]);
    StartsWith(rest, "|") && EndsOrComment(TrimStart(SkipDigits(SkipSigns(rest[1..]))))
  }

  lemma HeaderKeyMore(key: string, c: White)
    ensures HeaderKey(key + [c]) <==> HeaderKey(key)
  {
    PrefixOfMore("hurl:", key, c);
    if StartsWith(key, "hurl:") {
      assert (key + [c])[5..] == key[5..] + [c];
      TrimStartMore(key[5..], c);
      var rest := TrimStart(key[5..]);
      if rest != [] {
        assert (rest + [c])[1..] == rest[1..] + [c];
        TailMore(rest[1..], c);
      }
    }
  }

  lemma ScalarKeyMore(key: string, c: White)
    requires key != []
    ensures ScalarKey(key + [c]) <==> ScalarKey(key)
  {
    AfterColonMore(key, c);
    if TrimStart(AfterColon(key)) != [] {
      IndicatorMore(TrimStart(AfterColon(key)), c);
    }
  }

  lemma LineByKey(line: string)
    ensures IsHeader(line) <==> HeaderKey(if InListItem(line) then TrimStart(line)[2..] else TrimStart(line))
  {
  }

  lemma DashAlone(line: string)
    requires TrimStart(line) == "-" || exists c: White :: TrimStart(line) == ['-', c]
    ensures !IsHeader(line) && !OpensScalar(line)
  {
    var x := TrimStart(line);
    assert x[1..] == [] || (|x[1..]| == 1 && IsWhite(x[1]) && x[1..][1..] == []);
    assert AfterColon(x[1..]) == [];
    assert AfterColon(x) == AfterColon(x[1..]);
    assert TrimStart(AfterDash(line)) == [] || TrimStart(AfterDash(line)) == x;
    LineByKey(line);
  }

  /** One trailing white character more. */
  lemma OneWhiteMore(line: string)
    requires line != [] && IsWhite(line[|line| - 1]) && !IsBlank(line)
    ensures var less := line[..|line| - 1];
            && (IsHeader(less) <==> IsHeader(line)) && (OpensScalar(less) <==> OpensScalar(line))
            && (IsHeader(line) || OpensScalar(line) ==> KeyColumn(less) == KeyColumn(line))
  {
    var less, c := line[..|line| - 1], line[|line| - 1];
    DropWhite(line);
    var x := TrimStart(less);
    if x == "-" {
      DashAlone(less);
      assert x + [c] == ['-', c];
      DashAlone(line);
    } else {
      SameItem(less, line, c);
      if IsHeader(line) {
        HeaderHasKey(less);
      }
    }
  }

  lemma SameItem(less: string, line: string, c: White)
    requires TrimStart(line) == TrimStart(less) + [c] && TrimStart(less) != [] && TrimStart(less) != "-"
    requires Indent(less) == Indent(line)
    ensures (IsHeader(less) <==> IsHeader(line)) && (OpensScalar(less) <==> OpensScalar(line))
    ensures TrimStart(AfterDash(less)) != [] ==> KeyColumn(less) == KeyColumn(line)
  {
    var x := TrimStart(less);
    assert InListItem(line) <==> InListItem(less);
    if InListItem(less) {
      assert (x + [c])[1..] == x[1..] + [c];
    }
    SameHeader(less, line, c);
    SameScalar(less, line, c);
  }

  lemma SameHeader(less: string, line: string, c: White)
    requires TrimStart(line) == TrimStart(less) + [c] && (InListItem(line) <==> InListItem(less))
    ensures IsHeader(less) <==> IsHeader(line)
  {
    var x := TrimStart(less);
    LineByKey(less);
    LineByKey(line);
    if InListItem(less) {
      assert (x + [c])[2..] == x[2..] + [c];
      HeaderKeyMore(x[2..], c);
    } else {
      HeaderKeyMore(x, c);
    }
  }

  lemma HeaderHasKey(line: string)
    requires IsHeader(line)
    ensures TrimStart(AfterDash(line)) != []
  {
    var x := TrimStart(line);
    if InListItem(line) {
      assert x[1..][1..] == x[2..];
    }
  }

  lemma SameScalar(less: string, line: string, c: White)
    requires AfterDash(line) == AfterDash(less) + [c] && (InListItem(line) <==> InListItem(less))
    requires Indent(less) == Indent(line)
    ensures OpensScalar(less) <==> OpensScalar(line)
    ensures TrimStart(AfterDash(less)) != [] ==> KeyColumn(less) == KeyColumn(line)
  {
    var d := AfterDash(less);
    TrimStartMore(d, c);
    if TrimStart(d) != [] {
      ScalarKeyMore(TrimStart(d), c);
      assert AfterDash(line)[..|d|] == d;
      DropWhite(AfterDash(line));
    }
  }

  /** Trimming the end of a line changes nothing about where YAML goes from it. */
  lemma {:induction false} TrimmedReadsAlike(line: string)
    requires !IsBlank(line)
    ensures var t := TrimEnd(line);
            && (IsHeader(t) <==> IsHeader(line)) && (OpensScalar(t) <==> OpensScalar(line))
            && (IsHeader(line) || OpensScalar(line) ==> KeyColumn(t) == KeyColumn(line))
  {
    if line != [] && IsWhite(line[|line| - 1]) {
      OneWhiteMore(line);
      DropWhite(line);
      TrimmedReadsAlike(line[..|line| - 1]);
    }
  }

  lemma TrimmedYaml(y: Yaml, line: Line)
    requires !IsBlank(line.content)
    ensures YamlNext(y, Trimmed(line)) == YamlNext(y, line)
    ensures IsSkeleton(y, Trimmed(line)) <==> IsSkeleton(y, line)
  {
    TrimEndKeeps(line.content);
    TrimmedReadsAlike(line.content);
  }

  /** A blank line moves nothing. */
  lemma BlankYaml(y: Yaml, line: Line)
    requires IsBlank(line.content)
    ensures YamlNext(y, line) == y
    ensures IsSkeleton(y, line) <==> !y.HurlBlock?
  {
    assert AfterDash(line.content) == [];
  }

  // ----- what comes back of each line

  /** A line as it comes back: at most one line. */
  function Returned(s: State, line: Line, rest: seq<Line>): (r: seq<Line>)
    ensures |r| <= 1
    ensures r == [line] <==> Spared(s, line, rest)
  {
    if Verbatim(s, line) then [line]
    else if IsBlank(line.content) then
      if s.held == [] && GoesOn(s.key, rest) then [Line("", line.ending)] else []
    else [Trimmed(line)]
  }

  /** The skeleton lines as they come back. */
  function ReturnedLines(s: State, y: Yaml, lines: seq<Line>): seq<Line>
    decreases |lines|
  {
    if lines == [] then []
    else
      var rest := ReturnedLines(Next(s, lines[0]), YamlNext(y, lines[0]), lines[1..]);
      if IsSkeleton(y, lines[0]) then Returned(s, lines[0], lines[1..]) + rest else rest
  }

  /** The blank line held back, if it will be written and is a skeleton line. */
  function ReturnedHeld(s: State, y: Yaml, lines: seq<Line>): seq<Line> {
    if s.Inside? && !y.HurlBlock? && GoesOn(s.key, lines) then s.held else []
  }

  lemma SkeletonCons(y: Yaml, line: Line, rest: seq<Line>)
    ensures SkeletonLines(y, [line] + rest)
         == (if IsSkeleton(y, line) then [line] else []) + SkeletonLines(YamlNext(y, line), rest)
  {
    assert ([line] + rest)[1..] == rest;
    var more := SkeletonLines(YamlNext(y, line), rest);
    assert [] + more == more;
  }

  /** The skeleton of the output is what came back. */
  ghost predicate Returns(s: State, y: Yaml, lines: seq<Line>) {
    SkeletonLines(y, Emit(s, lines)) == ReturnedHeld(s, y, lines) + ReturnedLines(s, y, lines)
  }

  /** Read as YAML, the formatter's output has as skeleton what came back of the input's. */
  lemma {:induction false} SkeletonOfOutput(s: ProperState, y: Yaml, lines: seq<Line>)
    ensures Returns(s, y, lines)
    decreases |lines|
  {
    if lines != [] {
      var line, rest := lines[0], lines[1..];
      FenceNotBlank(line.content);
      ProperNext(s, line);
      SkeletonOfOutput(Next(s, line), YamlNext(y, line), rest);
      if Verbatim(s, line) {
        VerbatimOutput(s, y, lines);
      } else if IsBlank(line.content) {
        BlankOutput(s, y, lines);
      } else {
        TextOutput(s, y, lines);
      }
    }
  }

  lemma VerbatimOutput(s: State, y: Yaml, lines: seq<Line>)
    requires Proper(s) && lines != [] && Verbatim(s, lines[0])
    requires Returns(Next(s, lines[0]), YamlNext(y, lines[0]), lines[1..])
    ensures Returns(s, y, lines)
  {
    var line, rest := lines[0], lines[1..];
    SkeletonCons(y, line, Emit(Next(s, line), rest));
    assert ReturnedHeld(s, y, lines) == [];
    assert ReturnedHeld(Next(s, line), YamlNext(y, line), rest) == [];
    Nothing(ReturnedLines(Next(s, line), YamlNext(y, line), rest));
    Nothing(ReturnedLines(s, y, lines));
  }

  lemma Nothing<T>(a: seq<T>)
    ensures [] + a == a
  {
  }

  lemma BlankOutput(s: State, y: Yaml, lines: seq<Line>)
    requires Proper(s) && lines != [] && !Verbatim(s, lines[0]) && IsBlank(lines[0].content)
    requires Returns(Next(s, lines[0]), YamlNext(y, lines[0]), lines[1..])
    ensures Returns(s, y, lines)
  {
    var line, rest := lines[0], lines[1..];
    FenceNotBlank(line.content);
    BlankYaml(y, line);
    var next := Next(s, line);
    var after := ReturnedLines(next, y, rest);
    Nothing(Emit(next, rest));
    Nothing(after);
    Nothing(ReturnedLines(s, y, lines));
    if s.held == [] {
      assert ReturnedHeld(s, y, lines) == [];
    } else {
      assert Returned(s, line, rest) == [];
    }
  }

  /** A text line, whatever blank line it releases. */
  lemma TextReturned(s: State, y: Yaml, lines: seq<Line>)
    requires Proper(s) && lines != [] && !Verbatim(s, lines[0]) && !IsBlank(lines[0].content)
    requires Returns(Next(s, lines[0]), YamlNext(y, lines[0]), lines[1..])
    ensures SkeletonLines(y, [Trimmed(lines[0])] + Emit(Next(s, lines[0]), lines[1..])) == ReturnedLines(s, y, lines)
  {
    var line, rest := lines[0], lines[1..];
    var next, y' := Next(s, line), YamlNext(y, line);
    TrimmedYaml(y, line);
    SkeletonCons(y, Trimmed(line), Emit(next, rest));
    assert ReturnedHeld(next, y', rest) == [];
    Nothing(ReturnedLines(next, y', rest));
  }

  lemma HeldReturned(y: Yaml, held: seq<Line>, more: seq<Line>)
    requires held != [] ==> |held| == 1 && held[0].content == ""
    ensures SkeletonLines(y, held + more) == (if y.HurlBlock? then [] else held) + SkeletonLines(y, more)
  {
    if held == [] {
      Nothing(more);
    } else {
      BlankYaml(y, held[0]);
      SkeletonCons(y, held[0], more);
      assert held == [held[0]];
    }
    Nothing(SkeletonLines(y, more));
  }

  lemma TextGoesOn(s: State, y: Yaml, lines: seq<Line>)
    requires lines != [] && !Verbatim(s, lines[0]) && !IsBlank(lines[0].content)
    ensures ReturnedHeld(s, y, lines) == if y.HurlBlock? then [] else s.held
    ensures Emit(s, lines) == s.held + [Trimmed(lines[0])] + Emit(Next(s, lines[0]), lines[1..])
  {
  }

  lemma TextOutput(s: State, y: Yaml, lines: seq<Line>)
    requires Proper(s) && lines != [] && !Verbatim(s, lines[0]) && !IsBlank(lines[0].content)
    requires Returns(Next(s, lines[0]), YamlNext(y, lines[0]), lines[1..])
    ensures Returns(s, y, lines)
  {
    var t, after := [Trimmed(lines[0])], Emit(Next(s, lines[0]), lines[1..]);
    TextReturned(s, y, lines);
    HeldReturned(y, s.held, t + after);
    Reassociate(s.held, t, after);
    TextGoesOn(s, y, lines);
  }

  // ----- the law, line by line

  /** No more skeleton lines come back than went in; if as many, each with its terminator, and as it was or trimmed. */
  ghost predicate Alike(returned: seq<Line>, lines: seq<Line>) {
    && |returned| <= |lines|
    && (|returned| == |lines| ==>
          forall i :: 0 <= i < |lines| ==> returned[i] == lines[i] || returned[i] == Trimmed(lines[i]))
  }

  lemma AlikeCons(first: seq<Line>, line: Line, returned: seq<Line>, lines: seq<Line>)
    requires Alike(returned, lines)
    requires first == [] || first == [line] || first == [Trimmed(line)]
    ensures Alike(first + returned, [line] + lines)
    ensures first + returned == [line] + lines <==> first == [line] && returned == lines
  {
    if first + returned == [line] + lines {
      assert |first| == 1;
      assert (first + returned)[0] == first[0] && ([line] + lines)[0] == line;
      assert (first + returned)[1..] == returned && ([line] + lines)[1..] == lines;
    }
  }

  lemma BlankTrims(s: string)
    requires IsBlank(s)
    ensures TrimEnd(s) == []
  {
    TrimEndKeeps(s);
    TrimEndFacts(s);
    if TrimEnd(s) != [] {
      LastIsWhite(TrimEnd(s));
    }
  }

  lemma {:induction false} LastIsWhite(s: string)
    requires IsBlank(s) && s != []
    ensures IsWhite(s[|s| - 1])
  {
    if |s| > 1 {
      LastIsWhite(s[1..]);
    }
  }

  /** Skeleton lines all come back as they were exactly when none had anything to normalize. */
  lemma {:induction false} AllReturned(s: State, y: Yaml, lines: seq<Line>)
    ensures Alike(ReturnedLines(s, y, lines), SkeletonLines(y, lines))
    ensures ReturnedLines(s, y, lines) == SkeletonLines(y, lines) <==> SkeletonSpared(s, y, lines)
    decreases |lines|
  {
    if lines != [] {
      var line, rest := lines[0], lines[1..];
      AllReturned(Next(s, line), YamlNext(y, line), rest);
      if IsSkeleton(y, line) {
        if IsBlank(line.content) {
          BlankTrims(line.content);
        }
        AlikeCons(Returned(s, line, rest), line, ReturnedLines(Next(s, line), YamlNext(y, line), rest),
                  SkeletonLines(YamlNext(y, line), rest));
      }
    }
  }

  /**
   * The formatter leaves the YAML skeleton alone, every line whole and in order,
   * if and only if no skeleton line had anything to normalize.
   */
  lemma SkeletonKeptIffSpared(lines: seq<Line>)
    ensures SkeletonLines(Structure, Emit(Outside, lines)) == SkeletonLines(Structure, lines)
       <==> SkeletonSpared(Outside, Structure, lines)
  {
    SkeletonOfOutput(Outside, Structure, lines);
    Nothing(ReturnedLines(Outside, Structure, lines));
    AllReturned(Outside, Structure, lines);
  }

  // ----- whole texts

  lemma SettledReadsAlike(y: Yaml, line: Line, e: Ending)
    ensures IsSkeleton(y, Settle([line], e)[0]) <==> IsSkeleton(y, line)
  {
    if EndsCr(line.content) {
      DropWhite(line.content);
    }
  }

  /** Supplying the final newline supplies it to the skeleton, if the last line is in it. */
  lemma {:induction false} SkeletonSettled(y: Yaml, lines: seq<Line>, e: Ending)
    requires SoundLines(lines)
    ensures SkeletonLines(y, Settle(lines, e)) == Settle(SkeletonLines(y, lines), e)
    decreases |lines|
  {
    if lines != [] {
      var line, rest := lines[0], lines[1..];
      assert lines == [line] + rest;
      if rest == [] {
        SettledReadsAlike(y, line, e);
        assert Settle(lines, e) == [Settle([line], e)[0]];
      } else {
        SkeletonSettled(YamlNext(y, line), rest, e);
        SettleCons(line, rest, e);
        SkeletonCons(y, line, Settle(rest, e));
        SkeletonCons(y, line, rest);
        SettledCons(line, SkeletonLines(YamlNext(y, line), rest), e);
        Nothing(SkeletonLines(YamlNext(y, line), rest));
        Nothing(Settle(SkeletonLines(YamlNext(y, line), rest), e));
      }
    }
  }

  lemma SettledCons(line: Line, rest: seq<Line>, e: Ending)
    requires line.ending != Bare
    ensures Settle([line] + rest, e) == [line] + Settle(rest, e)
  {
    if rest == [] {
      assert [line] + rest == [line];
    } else {
      SettleCons(line, rest, e);
    }
  }

  lemma LastTells(line: Line, e: Ending)
    requires e != Bare && Trimmed(line) != line
    ensures Settle([Trimmed(line)], e)[0] != Settle([line], e)[0]
  {
    TrimEndFacts(line.content);
  }

  lemma SettleAt(lines: seq<Line>, e: Ending, i: nat)
    requires i < |lines|
    ensures |Settle(lines, e)| == |lines|
    ensures Settle(lines, e)[i] == if i == |lines| - 1 then Settle([lines[i]], e)[0] else lines[i]
  {
  }

  /** The final newline hides no trimming. */
  lemma SettleTells(returned: seq<Line>, lines: seq<Line>, e: Ending)
    requires Alike(returned, lines) && e != Bare
    ensures Settle(returned, e) == Settle(lines, e) <==> returned == lines
  {
    if |returned| == |lines| && returned != lines {
      var i :| 0 <= i < |lines| && returned[i] != lines[i];
      SettleAt(returned, e, i);
      SettleAt(lines, e, i);
      LastTells(lines[i], e);
    }
  }

  /**
   * On every text: formatting leaves the lines outside YAML's `hurl` blocks alone,
   * whole and in order, a missing final newline supplied, if and only if none of
   * them had anything to normalize.
   */
  lemma SkeletonUntouchedIff(text: string)
    ensures SkeletonLines(Structure, Lines(Normalized(text)))
              == Settle(SkeletonLines(Structure, Lines(text)), Dominant(text))
       <==> SkeletonSpared(Outside, Structure, Lines(text))
  {
    var lines, e := Lines(text), Dominant(text);
    LinesSound(text);
    EmitSound(Outside, lines);
    NormalizedHasFinalLines(text);
    SkeletonSettled(Structure, Emit(Outside, lines), e);
    SkeletonOfOutput(Outside, Structure, lines);
    Nothing(ReturnedLines(Outside, Structure, lines));
    AllReturned(Outside, Structure, lines);
    SettleTells(ReturnedLines(Outside, Structure, lines), SkeletonLines(Structure, lines), e);
  }

  // ----- packs whose skeleton is safe

  /** No `hurl` key stands in a list item, and nothing that looks like one in another key's text. */
  predicate PlainHeaders(y: Yaml, lines: seq<Line>)
    decreases |lines|
  {
    lines != [] ==>
      && (IsSkeleton(y, lines[0]) && IsHeader(lines[0].content) ==>
            !InListItem(lines[0].content) && !Continues(y, lines[0]))
      && PlainHeaders(YamlNext(y, lines[0]), lines[1..])
  }

  /** The formatter and YAML agree on where they stand. */
  predicate Aligned(s: State, y: Yaml) {
    if s.Outside? then !y.HurlBlock? else y == HurlBlock(s.key)
  }

  lemma {:induction false} PlainIsSpared(s: State, y: Yaml, lines: seq<Line>)
    requires Aligned(s, y) && PlainHeaders(y, lines)
    ensures SkeletonSpared(s, y, lines)
    decreases |lines|
  {
    if lines != [] {
      PlainIsSpared(Next(s, lines[0]), YamlNext(y, lines[0]), lines[1..]);
    }
  }

  /** In such a pack the skeleton is never touched. */
  lemma PlainPackKept(text: string)
    requires PlainHeaders(Structure, Lines(text))
    ensures SkeletonLines(Structure, Lines(Normalized(text)))
         == Settle(SkeletonLines(Structure, Lines(text)), Dominant(text))
  {
    PlainIsSpared(Outside, Structure, Lines(text));
    SkeletonUntouchedIff(text);
  }

  // ----- skeletons that are not

  /** A line of a list item that stands beside its `hurl` key. */
  predicate Beside(header: Line, line: Line) {
    && IsHeader(header.content) && InListItem(header.content)
    && !IsBlank(line.content) && Indent(line.content) == KeyColumn(header.content)
  }

  lemma BesideIsBody(header: Line, line: Line)
    requires Beside(header, line)
    ensures InBody(Indent(header.content), line)
    ensures YamlNext(Structure, header) == HurlBlock(KeyColumn(header.content))
    ensures IsSkeleton(YamlNext(Structure, header), line)
  {
  }

  /** A sibling of the `hurl` key is trimmed. */
  lemma SiblingKeyIsTrimmed(header: Line, sibling: Line)
    requires Beside(header, sibling)
    ensures Emit(Outside, [header, sibling]) == [header, Trimmed(sibling)]
    ensures Emit(Outside, [header, sibling]) == [header, sibling] <==> TrimEnd(sibling.content) == sibling.content
  {
    BesideIsBody(header, sibling);
    TextTrimmed(Inside(Indent(header.content), false, []), sibling);
    HeaderThen(header, [sibling]);
  }

  /** Of two blank lines between siblings one is dropped, though no line has trailing whitespace. */
  lemma SiblingsLoseBlank(header: Line, sibling: Line, blank: Line, other: Line)
    requires Beside(header, sibling) && Beside(header, other) && blank.content == ""
    requires !IsFence(sibling.content) && !IsFence(other.content)
    requires TrimEnd(sibling.content) == sibling.content && TrimEnd(other.content) == other.content
    ensures Emit(Outside, [header, sibling, blank, blank, other]) == [header, sibling, blank, other]
  {
    BesideIsBody(header, sibling);
    BesideIsBody(header, other);
    BodyLosesBlank(Inside(Indent(header.content), false, []), sibling, blank, other);
    HeaderThen(header, [sibling, blank, blank, other]);
  }

  lemma HeaderThen(header: Line, rest: seq<Line>)
    requires IsHeader(header.content)
    ensures Emit(Outside, [header] + rest) == [header] + Emit(Inside(Indent(header.content), false, []), rest)
  {
    EmitCons(Outside, header, rest);
  }

  lemma BodyLosesBlank(s: State, line: Line, blank: Line, other: Line)
    requires s.Inside? && !s.fence && s.held == [] && InBody(s.key, line) && InBody(s.key, other) && blank.content == ""
    requires !IsBlank(line.content) && !IsFence(line.content) && TrimEnd(line.content) == line.content
    requires !IsBlank(other.content) && !IsFence(other.content) && TrimEnd(other.content) == other.content
    ensures Emit(s, [line, blank, blank, other]) == [line, blank, other]
  {
    BlanksCollapse(s, blank, other);
    EmitPlain(s, line, [blank, blank, other]);
  }

  lemma BlanksCollapse(s: State, blank: Line, other: Line)
    requires s.Inside? && !s.fence && s.held == [] && blank.content == "" && InBody(s.key, other)
    requires !IsBlank(other.content) && !IsFence(other.content) && TrimEnd(other.content) == other.content
    ensures Emit(s, [blank, blank, other]) == [blank, other]
  {
    var held := Inside(s.key, false, [blank]);
    EmitPlain(held, other, []);
    EmitBlank(held, blank, [other]);
    EmitBlank(s, blank, [blank, other]);
  }

  lemma EmitCons(s: State, line: Line, rest: seq<Line>)
    ensures Emit(s, [line] + rest) == Emitted(s, line) + Emit(Next(s, line), rest)
  {
    assert ([line] + rest)[1..] == rest;
  }

  /** A trimmed text line, and the blank line it releases. */
  lemma EmitPlain(s: State, line: Line, rest: seq<Line>)
    requires !Verbatim(s, line) && !IsBlank(line.content) && !IsFence(line.content)
    requires TrimEnd(line.content) == line.content
    ensures Emit(s, [line] + rest) == s.held + [line] + Emit(Inside(s.key, false, []), rest)
  {
    EmitCons(s, line, rest);
  }

  lemma EmitBlank(s: State, blank: Line, rest: seq<Line>)
    requires s.Inside? && !s.fence && blank.content == ""
    ensures Emit(s, [blank] + rest) == Emit(Inside(s.key, false, if s.held == [] then [blank] else s.held), rest)
  {
    EmitCons(s, blank, rest);
  }

  /** A key's block scalar whose first two lines spell a `hurl` block. */
  predicate ShowsBlock(key: Line, header: Line, text: Line) {
    && !IsHeader(key.content) && OpensScalar(key.content)
    && IsHeader(header.content) && KeyColumn(key.content) < Indent(header.content) < Indent(text.content)
    && !IsBlank(text.content)
  }

  lemma ShownIsSkeleton(key: Line, header: Line, text: Line)
    requires ShowsBlock(key, header, text)
    ensures SkeletonLines(Structure, [key, header, text]) == [key, header, text]
  {
    var y := Scalar(KeyColumn(key.content));
    SkeletonCons(y, text, []);
    SkeletonCons(y, header, [text]);
    SkeletonCons(Structure, key, [header, text]);
  }

  /** Text of another key that looks like a `hurl` block is formatted as one. */
  lemma ScalarTextTrimmed(key: Line, header: Line, text: Line)
    requires ShowsBlock(key, header, text)
    ensures Emit(Outside, [key, header, text]) == [key, header, Trimmed(text)]
    ensures SkeletonLines(Structure, [key, header, text]) == [key, header, text]
  {
    TextTrimmed(Inside(Indent(header.content), false, []), text);
    HeaderThen(header, [text]);
    EmitCons(Outside, key, [header, text]);
    ShownIsSkeleton(key, header, text);
  }

  lemma TextTrimmed(s: State, text: Line)
    requires s.Inside? && !s.fence && s.held == [] && InBody(s.key, text) && !IsBlank(text.content)
    ensures Emit(s, [text]) == [Trimmed(text)]
  {
    EmitCons(s, text, []);
    assert [] + [Trimmed(text)] + [] == [Trimmed(text)];
  }

  // ----- such lines exist

  /** A key, or any text that starts in its first column. */
  type Unindented = s: string | s != [] && !IsWhite(s[0]) witness "x"

  lemma HurlKey()
    ensures HeaderKey("hurl: |")
  {
    var key := "hurl: |";
    assert key[5..] == " |" && " |"[1..] == "|" && "|"[1..] == [];
    assert TrimStart("|") == "|";
    assert TrimStart(key[5..]) == "|";
    assert SkipSigns([]) == [] && SkipDigits([]) == [] && TrimStart([]) == [];
  }

  lemma ItemLine(key: Unindented)
    ensures InListItem("- " + key) && KeyColumn("- " + key) == 2 && Indent("- " + key) == 0
    ensures IsHeader("- " + key) <==> HeaderKey(key)
  {
    var line := "- " + key;
    assert TrimStart(line) == line && line[2..] == key && line[1..] == " " + key;
    assert (" " + key)[1..] == key;
    assert Indent(key) == 0 && |Utf8Char(' ')| == 1;
    assert Indent(" " + key) == 1;
    LineByKey(line);
  }

  lemma IndentedLine(text: string)
    requires !IsBlank(text)
    ensures TrimStart("  " + text) == TrimStart(text) && Indent("  " + text) == 2 + Indent(text)
  {
    assert ("  " + text)[1..] == " " + text && (" " + text)[1..] == text;
    assert |Utf8Char(' ')| == 1;
    assert Indent(" " + text) == 1 + Indent(text) && TrimStart(" " + text) == TrimStart(text);
  }

  /** A line beside a list item's `hurl` key: a tag, for one. */
  lemma SiblingsExist(key: Unindented)
    ensures Beside(Line("- " + "hurl: |", Lf), Line("  " + key, Lf))
  {
    HurlKey();
    ItemLine("hurl: |");
    IndentedLine(key);
  }

  lemma DocKey()
    ensures ScalarKey("doc: |") && !IsHeader("doc: |") && OpensScalar("doc: |") && KeyColumn("doc: |") == 0
  {
    var key := "doc: |";
    assert key[1..] == "oc: |" && "oc: |"[1..] == "c: |" && "c: |"[1..] == ": |" && ": |"[1..] == " |";
    assert AfterColon(": |") == " |";
    assert AfterColon("c: |") == " |";
    assert AfterColon(key) == " |";
    assert " |"[1..] == "|" && "|"[1..] == [] && TrimStart("|") == "|";
    assert TrimStart(" |") == "|";
    assert SkipSigns([]) == [] && SkipDigits([]) == [] && TrimStart([]) == [];
    assert TrimStart(key) == key && AfterDash(key) == key;
    LineByKey(key);
  }

  /** A pack's documentation that shows a block. */
  lemma ShownBlocksExist(text: Unindented)
    ensures ShowsBlock(Line("doc: |", Lf), Line("  " + "hurl: |", Lf), Line("  " + ("  " + text), Lf))
  {
    DocKey();
    HurlKey();
    IndentedLine("hurl: |");
    LineByKey("  " + "hurl: |");
    IndentedLine(text);
    IndentedLine("  " + text);
  }
}
