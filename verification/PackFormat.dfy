// `proef fmt`: normalizing the `hurl:` literal blocks of a macro pack.
module PackFormat {
  import opened Sequences
  import opened Utf8

  // ----- text

  /** The Unicode White_Space characters. */
  predicate IsWhite(c: char) {
    var n := c as int;
    0x09 <= n <= 0x0D || n == 0x20 || n == 0x85 || n == 0xA0 || n == 0x1680 || 0x2000 <= n <= 0x200A
    || n == 0x2028 || n == 0x2029 || n == 0x202F || n == 0x205F || n == 0x3000
  }

  function TrimStart(s: string): string {
    if s != [] && IsWhite(s[0]) then TrimStart(s[1..]) else s
  }

  function TrimEnd(s: string): string {
    if s != [] && IsWhite(s[|s| - 1]) then TrimEnd(s[..|s| - 1]) else s
  }

  predicate IsBlank(s: string) {
    TrimStart(s) == []
  }

  /** Leading whitespace, in bytes. */
  function Indent(s: string): nat {
    if s != [] && IsWhite(s[0]) then |Utf8Char(s[0])| + Indent(s[1..]) else 0
  }

  predicate StartsWith(s: string, prefix: string) {
    prefix <= s
  }

  predicate IsFence(s: string) {
    StartsWith(TrimStart(s), "```")
  }

  function SkipSigns(s: string): string {
    if s != [] && (s[0] == '-' || s[0] == '+') then SkipSigns(s[1..]) else s
  }

  function SkipDigits(s: string): string {
    if s != [] && '0' <= s[0] <= '9' then SkipDigits(s[1..]) else s
  }

  /** A `hurl:` key whose value is a literal block scalar, in any spelling. */
  predicate IsHeader(line: string) {
    var trimmed := TrimStart(line);
    var key := if StartsWith(trimmed, "- ") then trimmed[2..] else trimmed;
    StartsWith(key, "hurl:") &&
    var rest := TrimStart(key[5..]);
    StartsWith(rest, "|") &&
    var after := TrimStart(SkipDigits(SkipSigns(rest[1..])));
    after == [] || after[0] == '#'
  }

  /** How a line ends: not at all (the last line of a text), or with its own terminator. */
  datatype Ending = Bare | Lf | CrLf {
    function Text(): string {
      match this
      case Bare => ""
      case Lf => "\n"
      case CrLf => "\r\n"
    }
  }

  datatype Line = Line(content: string, ending: Ending) {
    function Text(): string { content + ending.Text() }
  }

  // ----- lines of a text

  /** Position of the first line feed, or the length. */
  function FindLf(s: string): (i: nat)
    ensures i <= |s| && (i < |s| ==> s[i] == '\n') && '\n' !in s[..i]
  {
    if s == [] || s[0] == '\n' then 0
    else
      var i := 1 + FindLf(s[1..]);
      assert s[..i] == [s[0]] + s[1..][..i - 1];
      i
  }

  /** The line that ends with the line feed at `i`. */
  function LineTo(text: string, i: nat): Line
    requires i < |text|
  {
    if i > 0 && text[i - 1] == '\r' then Line(text[..i - 1], CrLf) else Line(text[..i], Lf)
  }

  function Lines(text: string): seq<Line>
    decreases |text|
  {
    if text == [] then []
    else
      var i := FindLf(text);
      if i == |text| then [Line(text, Bare)] else [LineTo(text, i)] + Lines(text[i + 1..])
  }

  function Join(lines: seq<Line>): string {
    if lines == [] then [] else lines[0].Text() + Join(lines[1..])
  }

  /** `out`, then the lines of `text`. */
  ghost function LinesOnto(out: seq<Line>, text: string): seq<Line>
    decreases |text|
  {
    if text == [] then out
    else
      var i := FindLf(text);
      if i == |text| then out + [Line(text, Bare)] else LinesOnto(out + [LineTo(text, i)], text[i + 1..])
  }

  lemma {:induction false} LinesOntoIsLines(out: seq<Line>, text: string)
    ensures LinesOnto(out, text) == out + Lines(text)
    decreases |text|
  {
    if text != [] {
      var i := FindLf(text);
      if i < |text| {
        LinesOntoIsLines(out + [LineTo(text, i)], text[i + 1..]);
        Reassociate(out, [LineTo(text, i)], Lines(text[i + 1..]));
      }
    }
  }

  method SplitLines(text: string) returns (out: seq<Line>)
    ensures out == Lines(text)
  {
    LinesOntoIsLines([], text);
    assert [] + Lines(text) == Lines(text);
    out := [];
    var rest := text;
    while rest != []
      invariant LinesOnto(out, rest) == LinesOnto([], text)
      decreases |rest|
    {
      var index := FindLf(rest);
      if index == |rest| {
        return out + [Line(rest, Bare)];
      }
      out := out + [LineTo(rest, index)];
      rest := rest[index + 1..];
    }
  }

  function CountLf(s: string): nat {
    if s == [] then 0 else CountLf(s[..|s| - 1]) + if s[|s| - 1] == '\n' then 1 else 0
  }

  function CountCrLf(s: string): nat {
    if |s| < 2 then 0
    else CountCrLf(s[..|s| - 1]) + if s[|s| - 2] == '\r' && s[|s| - 1] == '\n' then 1 else 0
  }

  /** The ending a missing final newline is supplied with. */
  function Dominant(text: string): Ending {
    if CountCrLf(text) > CountLf(text) - CountCrLf(text) then CrLf else Lf
  }

  // ----- the normal form, line by line

  /**
   * Where the formatter stands: outside any block, or in one whose key is
   * indented by `key`, possibly in a fence, possibly holding back a blank line
   * until the block is known to go on.
   */
  datatype State = Outside | Inside(key: nat, fence: bool, held: seq<Line>)

  predicate InBody(key: nat, line: Line) {
    IsBlank(line.content) || Indent(line.content) > key
  }

  function AfterSkeleton(line: Line): State {
    if IsHeader(line.content) then Inside(Indent(line.content), false, []) else Outside
  }

  function Trimmed(line: Line): Line {
    Line(TrimEnd(line.content), line.ending)
  }

  predicate Skeleton(s: State, line: Line) {
    s.Outside? || !InBody(s.key, line)
  }

  predicate Verbatim(s: State, line: Line) {
    Skeleton(s, line) || s.fence
  }

  function Next(s: State, line: Line): State {
    if Skeleton(s, line) then AfterSkeleton(line)
    else if s.fence then Inside(s.key, !IsFence(line.content), [])
    else if IsFence(line.content) then Inside(s.key, true, [])
    else if IsBlank(line.content) then
      Inside(s.key, false, if s.held == [] then [Line("", line.ending)] else s.held)
    else Inside(s.key, false, [])
  }

  function Emitted(s: State, line: Line): seq<Line> {
    if Verbatim(s, line) then [line]
    else if IsBlank(line.content) then []
    else s.held + [Trimmed(line)]
  }

  /** Everything the formatter writes for `lines` from state `s` on. */
  function Emit(s: State, lines: seq<Line>): seq<Line>
    decreases |lines|
  {
    if lines == [] then [] else Emitted(s, lines[0]) + Emit(Next(s, lines[0]), lines[1..])
  }

  /** A last line without a terminator gets one. */
  function Finish(lines: seq<Line>, ending: Ending): seq<Line> {
    if lines == [] || lines[|lines| - 1].ending != Bare then lines
    else lines[|lines| - 1 := Line(lines[|lines| - 1].content, ending)]
  }

  function Normalized(text: string): string {
    Join(Finish(Emit(Outside, Lines(text)), Dominant(text)))
  }

  // ----- the formatter as the program runs it

  predicate LastIsBlank(lines: seq<Line>) {
    lines != [] && IsBlank(lines[|lines| - 1].content)
  }

  /** What the body loop holds: everything written so far, then the blank line held back. */
  ghost predicate Holds(canonical: seq<Line>, inFence: bool, written: seq<Line>, held: seq<Line>) {
    && canonical == written + held
    && (held != [] ==> |held| == 1 && held[0].content == "" && !inFence)
    && (!inFence ==> !LastIsBlank(written))
  }

  /** One line of a block body. */
  method CanonicalLine(
    key: nat, canonical: seq<Line>, inFence: bool, line: Line, ghost written: seq<Line>, ghost held: seq<Line>)
    returns (canonical': seq<Line>, inFence': bool)
    requires InBody(key, line) && Holds(canonical, inFence, written, held)
    ensures var s := Inside(key, inFence, held);
            && Next(s, line) == Inside(key, inFence', Held(Next(s, line)))
            && Holds(canonical', inFence', written + Emitted(s, line), Held(Next(s, line)))
  {
    canonical', inFence' := canonical, inFence;
    FenceNotBlank(line.content);
    TrimEndKeeps(line.content);
    if inFence {
      inFence' := !IsFence(line.content);
      canonical' := canonical + [line];
    } else if IsFence(line.content) {
      inFence' := true;
      canonical' := canonical + [Trimmed(line)];
    } else if IsBlank(line.content) {
      if !LastIsBlank(canonical) {
        canonical' := canonical + [Line("", line.ending)];
      }
    } else {
      canonical' := canonical + [Trimmed(line)];
    }
  }

  /** `out`, then what the formatter writes for `lines`. */
  ghost function EmitOnto(out: seq<Line>, s: State, lines: seq<Line>): seq<Line>
    decreases |lines|
  {
    if lines == [] then out else EmitOnto(out + Emitted(s, lines[0]), Next(s, lines[0]), lines[1..])
  }

  lemma {:induction false} EmitOntoIsEmit(out: seq<Line>, s: State, lines: seq<Line>)
    ensures EmitOnto(out, s, lines) == out + Emit(s, lines)
    decreases |lines|
  {
    if lines != [] {
      EmitOntoIsEmit(out + Emitted(s, lines[0]), Next(s, lines[0]), lines[1..]);
      Reassociate(out, Emitted(s, lines[0]), Emit(Next(s, lines[0]), lines[1..]));
    }
  }

  lemma EmitOntoNothing(s: State, lines: seq<Line>)
    ensures EmitOnto([], s, lines) == Emit(s, lines)
  {
    EmitOntoIsEmit([], s, lines);
    assert [] + Emit(s, lines) == Emit(s, lines);
  }

  lemma EmitStep(out: seq<Line>, s: State, lines: seq<Line>, i: nat)
    requires i < |lines|
    ensures EmitOnto(out, s, lines[i..])
         == EmitOnto(out + Emitted(s, lines[i]), Next(s, lines[i]), lines[i + 1..])
  {
    assert lines[i..][1..] == lines[i + 1..];
  }

  /** Canonicalize one block body: collapse blank runs, drop trailing blanks, leave fences alone. */
  method CanonicalBody(key: nat, body: seq<Line>) returns (canonical: seq<Line>)
    requires forall i :: 0 <= i < |body| ==> InBody(key, body[i])
    ensures canonical == Emit(Inside(key, false, []), body)
  {
    canonical := [];
    var inFence := false;
    ghost var written, held: seq<Line> := [], [];
    ghost var target := EmitOnto([], Inside(key, false, []), body);
    assert body[0..] == body;
    for i := 0 to |body|
      invariant Holds(canonical, inFence, written, held)
      invariant EmitOnto(written, Inside(key, inFence, held), body[i..]) == target
    {
      EmitStep(written, Inside(key, inFence, held), body, i);
      ghost var s := Inside(key, inFence, held);
      canonical, inFence := CanonicalLine(key, canonical, inFence, body[i], written, held);
      written, held := written + Emitted(s, body[i]), Held(Next(s, body[i]));
    }
    EmitOntoNothing(Inside(key, false, []), body);
    canonical := DropTrailingBlanks(canonical, inFence, written, held);
  }

  method DropTrailingBlanks(canonical: seq<Line>, inFence: bool, ghost written: seq<Line>, ghost held: seq<Line>)
    returns (kept: seq<Line>)
    requires Holds(canonical, inFence, written, held)
    ensures kept == written
  {
    kept := canonical;
    ghost var still := held;
    while !inFence && LastIsBlank(kept)
      invariant Holds(kept, inFence, written, still)
      decreases |kept|
    {
      kept, still := kept[..|kept| - 1], [];
    }
  }

  /** The lines that belong to the block opened just before `first`. */
  method CollectBody(lines: seq<Line>, first: nat, key: nat) returns (body: seq<Line>, i: nat)
    requires first <= |lines|
    ensures first <= i <= |lines| && body == lines[first..i]
    ensures forall j :: 0 <= j < |body| ==> InBody(key, body[j])
    ensures i < |lines| ==> !InBody(key, lines[i])
  {
    body, i := [], first;
    while i < |lines| && InBody(key, lines[i])
      invariant first <= i <= |lines| && body == lines[first..i]
      invariant forall j :: 0 <= j < |body| ==> InBody(key, body[j])
    {
      body := body + [lines[i]];
      i := i + 1;
    }
  }

  /** A whole block, from its first body line on. */
  lemma BlockStep(lines: seq<Line>, first: nat, i: nat, key: nat, out: seq<Line>)
    requires first <= i <= |lines|
    requires forall j :: 0 <= j < i - first ==> InBody(key, lines[first..i][j])
    requires i < |lines| ==> !InBody(key, lines[i])
    ensures var s := Inside(key, false, []);
            EmitOnto(out, s, lines[first..]) == EmitOnto(out + Emit(s, lines[first..i]), Outside, lines[i..])
  {
    var s := Inside(key, false, []);
    var body, rest := lines[first..i], lines[i..];
    assert lines[first..] == body + rest;
    BlockEnds(s, body, rest);
    EmitOntoIsEmit(out, s, body + rest);
    EmitOntoIsEmit(out + Emit(s, body), Outside, rest);
    Reassociate(out, Emit(s, body), Emit(Outside, rest));
  }

  /** One skeleton line and, if it opens a block, the block. */
  method FormatNext(lines: seq<Line>, i: nat, out: seq<Line>) returns (next: nat, out': seq<Line>)
    requires i < |lines|
    ensures i < next <= |lines|
    ensures EmitOnto(out', Outside, lines[next..]) == EmitOnto(out, Outside, lines[i..])
  {
    EmitStep(out, Outside, lines, i);
    var line := lines[i];
    next, out' := i + 1, out + [line];
    if IsHeader(line.content) {
      var key := Indent(line.content);
      var body;
      body, next := CollectBody(lines, i + 1, key);
      BlockStep(lines, i + 1, next, key, out');
      var canonical := CanonicalBody(key, body);
      out' := out' + canonical;
    }
  }

  /** Normalize every `hurl:` block of a pack. */
  method NormalizePack(text: string) returns (result: string)
    ensures result == Normalized(text)
  {
    var ending := Dominant(text);
    var lines := SplitLines(text);
    var out: seq<Line> := [];
    var i := 0;
    assert lines[0..] == lines;
    EmitOntoNothing(Outside, lines);
    while i < |lines|
      invariant i <= |lines|
      invariant EmitOnto(out, Outside, lines[i..]) == EmitOnto([], Outside, lines)
    {
      i, out := FormatNext(lines, i, out);
    }
    result := Write(out, ending);
  }

  lemma JoinStep(lines: seq<Line>, i: nat, was: string)
    requires i < |lines|
    ensures was + Join(lines[i..]) == (was + lines[i].Text()) + Join(lines[i + 1..])
  {
    assert lines[i..][1..] == lines[i + 1..];
    Reassociate(was, lines[i].Text(), Join(lines[i + 1..]));
  }

  method Write(out: seq<Line>, ending: Ending) returns (result: string)
    ensures result == Join(Finish(out, ending))
  {
    result := "";
    ghost var finished := Finish(out, ending);
    assert finished[0..] == finished;
    for index := 0 to |out|
      invariant result + Join(finished[index..]) == Join(finished)
    {
      JoinStep(finished, index, result);
      var line := out[index];
      var term := if line.ending == Bare && index + 1 == |out| then ending else line.ending;
      assert finished[index] == Line(line.content, term);
      result := result + (line.content + term.Text());
    }
  }

  /** A block's output does not depend on what follows it. */
  lemma {:induction false} BlockEnds(s: State, body: seq<Line>, rest: seq<Line>)
    requires s.Inside? && forall i :: 0 <= i < |body| ==> InBody(s.key, body[i])
    requires rest == [] || !InBody(s.key, rest[0])
    ensures Emit(s, body + rest) == Emit(s, body) + Emit(Outside, rest)
    decreases |body|
  {
    if body == [] {
      assert body + rest == rest;
    } else {
      assert (body + rest)[1..] == body[1..] + rest;
      BlockEnds(Next(s, body[0]), body[1..], rest);
    }
  }

  // ----- facts about trimming

  lemma {:induction false} TrimStartFacts(s: string)
    ensures TrimStart(s) != [] ==> !IsWhite(TrimStart(s)[0])
    ensures |TrimStart(s)| <= |s| && TrimStart(s) == s[|s| - |TrimStart(s)|..]
  {
    if s != [] && IsWhite(s[0]) {
      TrimStartFacts(s[1..]);
    }
  }

  lemma {:induction false} TrimEndFacts(s: string)
    ensures TrimEnd(s) <= s
    ensures TrimEnd(s) != [] ==> !IsWhite(TrimEnd(s)[|TrimEnd(s)| - 1])
    ensures TrimEnd(TrimEnd(s)) == TrimEnd(s)
  {
    if s != [] && IsWhite(s[|s| - 1]) {
      TrimEndFacts(s[..|s| - 1]);
    }
  }

  lemma FenceNotBlank(s: string)
    ensures IsFence(s) ==> !IsBlank(s)
  {
  }

  /** Dropping one trailing white character changes nothing the formatter looks at. */
  lemma {:induction false} DropWhite(s: string)
    requires s != [] && IsWhite(s[|s| - 1])
    ensures var t := s[..|s| - 1];
            && (IsBlank(t) <==> IsBlank(s))
            && (!IsBlank(s) ==> Indent(t) == Indent(s) && TrimStart(s) == TrimStart(t) + [s[|s| - 1]])
  {
    var t := s[..|s| - 1];
    if |s| == 1 {
      assert s[1..] == [];
    } else {
      assert s[1..][..|s[1..]| - 1] == t[1..];
      if IsWhite(s[0]) {
        DropWhite(s[1..]);
      } else {
        assert s == t + [s[|s| - 1]];
      }
    }
  }

  lemma DropWhiteFence(s: string)
    requires s != [] && IsWhite(s[|s| - 1])
    ensures IsFence(s[..|s| - 1]) <==> IsFence(s)
  {
    DropWhite(s);
    if !IsBlank(s) {
      PrefixOfMore("```", TrimStart(s[..|s| - 1]), s[|s| - 1]);
    }
  }

  lemma PrefixOfMore(p: string, x: string, c: char)
    ensures p <= x + [c] ==> p <= x || c in p
    ensures p <= x ==> p <= x + [c]
  {
    if p <= x + [c] && |p| == |x| + 1 {
      assert p[|x|] == c;
    }
  }

  /** Trimming the end of a line keeps its kind and its indentation. */
  lemma {:induction false} TrimEndKeeps(s: string)
    ensures IsBlank(TrimEnd(s)) <==> IsBlank(s)
    ensures !IsBlank(s) ==> Indent(TrimEnd(s)) == Indent(s)
    ensures IsFence(TrimEnd(s)) <==> IsFence(s)
  {
    if s != [] && IsWhite(s[|s| - 1]) {
      DropWhite(s);
      DropWhiteFence(s);
      TrimEndKeeps(s[..|s| - 1]);
    }
  }

  // ----- tidy lines: what the formatter leaves alone

  /**
   * Skeleton and fenced lines may be anything. In a block, outside fences: no
   * trailing whitespace, blank lines are empty, no two in a row, none at the end.
   */
  ghost predicate Tidy(s: State, lines: seq<Line>)
    decreases |lines|
  {
    if lines == [] then s.Outside? || s.held == []
    else TidyLine(s, lines[0]) && Tidy(Next(s, lines[0]), lines[1..])
  }

  ghost predicate TidyLine(s: State, line: Line) {
    if Skeleton(s, line) then s.Outside? || s.held == []
    else if s.fence then true
    else if IsBlank(line.content) then line.content == "" && s.held == []
    else TrimEnd(line.content) == line.content
  }

  /** At most one held line, an empty one, and none in a fence. */
  predicate Proper(s: State) {
    s.Inside? && s.held != [] ==> |s.held| == 1 && s.held[0].content == "" && !s.fence
  }

  type ProperState = s: State | Proper(s) witness Outside

  function Held(s: State): seq<Line> {
    if s.Outside? then [] else s.held
  }

  function Dropped(s: State): State {
    if s.Outside? then s else Inside(s.key, s.fence, [])
  }

  lemma TidyCons(s: State, line: Line, rest: seq<Line>)
    ensures Tidy(s, [line] + rest) <==> TidyLine(s, line) && Tidy(Next(s, line), rest)
  {
    assert ([line] + rest)[1..] == rest;
  }

  /** A trimmed text line in a block behaves as the untrimmed one. */
  lemma TrimmedStep(s: State, line: Line)
    requires s.Inside? && !Verbatim(s, line) && !IsBlank(line.content)
    ensures !Verbatim(s, Trimmed(line)) && !IsBlank(Trimmed(line).content)
    ensures Next(s, Trimmed(line)) == Next(s, line)
    ensures TrimEnd(Trimmed(line).content) == Trimmed(line).content
  {
    TrimEndKeeps(line.content);
    TrimEndFacts(line.content);
  }

  /** Whatever the formatter writes is tidy. */
  lemma {:induction false} EmitTidy(s: ProperState, lines: seq<Line>)
    ensures Tidy(Dropped(s), Emit(s, lines))
    decreases |lines|
  {
    if lines != [] {
      var line, rest := lines[0], lines[1..];
      var written := Emit(Next(s, line), rest);
      FenceNotBlank(line.content);
      EmitTidy(Next(s, line), rest);
      if Verbatim(s, line) {
        TidyCons(Dropped(s), line, written);
      } else if !IsBlank(line.content) {
        TextTidy(s, line, written);
      } else {
        assert Emit(s, lines) == written;
      }
    }
  }

  /** A text line in a block, after the blank line it releases. */
  lemma TextTidy(s: State, line: Line, written: seq<Line>)
    requires Proper(s) && !Verbatim(s, line) && !IsBlank(line.content)
    requires Tidy(Next(s, line), written)
    ensures Tidy(Dropped(s), s.held + [Trimmed(line)] + written)
  {
    TrimmedStep(s, line);
    TidyCons(s, Trimmed(line), written);
    if s.held == [] {
      assert s.held + [Trimmed(line)] + written == [Trimmed(line)] + written;
      assert Dropped(s) == s;
    } else {
      var h := s.held[0];
      FenceNotBlank(h.content);
      assert Next(Dropped(s), h) == s;
      TidyCons(Dropped(s), h, [Trimmed(line)] + written);
      assert s.held + [Trimmed(line)] + written == [h] + ([Trimmed(line)] + written);
    }
  }

  /** A tidy line is written or held back, as it is. */
  lemma TidyLineKept(s: State, line: Line)
    requires Proper(s) && TidyLine(s, line)
    ensures Emitted(s, line) + Held(Next(s, line)) == Held(s) + [line]
  {
    FenceNotBlank(line.content);
    if Verbatim(s, line) {
      assert Held(s) == [];
    }
  }

  /** Tidy lines come back as they are. */
  lemma {:induction false} TidyKept(s: State, lines: seq<Line>)
    requires Proper(s) && Tidy(s, lines)
    ensures Emit(s, lines) == if lines != [] then Held(s) + lines else []
    decreases |lines|
  {
    if lines != [] {
      var line, rest := lines[0], lines[1..];
      var next := Next(s, line);
      TidyLineKept(s, line);
      TidyKept(next, rest);
      assert lines == [line] + rest;
      Exchange(Emitted(s, line), Held(next), Held(s), [line], rest);
    }
  }

  lemma Exchange<T>(a: seq<T>, b: seq<T>, c: seq<T>, d: seq<T>, rest: seq<T>)
    requires a + b == c + d
    ensures a + (b + rest) == c + (d + rest)
    ensures b == [] && rest == [] ==> a == c + (d + rest)
  {
    Reassociate(a, b, rest);
    Reassociate(c, d, rest);
  }

  /** The formatter changes nothing on its own lines, and nothing else escapes change. */
  lemma UnchangedIffTidy(lines: seq<Line>)
    ensures Emit(Outside, lines) == lines <==> Tidy(Outside, lines)
  {
    EmitTidy(Outside, lines);
    if Tidy(Outside, lines) {
      TidyKept(Outside, lines);
    }
  }
}
