// What `proef fmt` does, without its automaton: characters, fences and blocks spelled out.
module FormatReference {
  import opened Sequences
  import opened Utf8
  import opened PackFormat
  import opened FormatLaws

  // ----- characters and lines

  lemma WhiteSpelled(c: char)
    ensures IsWhite(c) <==>
              || c == ' ' || c == '\t' || c == '\n' || c == '\r'
              || c as int in {0x0B, 0x0C, 0x85, 0xA0, 0x1680, 0x2028, 0x2029, 0x202F, 0x205F, 0x3000}
              || 0x2000 <= c as int <= 0x200A
  {
  }

  predicate AllWhite(s: string) {
    forall i :: 0 <= i < |s| ==> IsWhite(s[i])
  }

  /** Trimming the start drops the white prefix and nothing else. */
  lemma {:induction false} TrimStartAt(s: string, n: nat)
    requires n <= |s| && AllWhite(s[..n]) && (n < |s| ==> !IsWhite(s[n]))
    ensures TrimStart(s) == s[n..]
    ensures Indent(s) == |Bytes(s[..n])|
  {
    if n > 0 {
      var front, rest := s[..n], s[1..][..n - 1];
      assert front[0] == s[0] && front[1..] == rest;
      forall i | 0 <= i < |rest| ensures IsWhite(rest[i]) {
        assert rest[i] == front[i + 1];
      }
      TrimStartAt(s[1..], n - 1);
    }
  }

  /** Trimming the end drops the white suffix and nothing else. */
  lemma {:induction false} TrimEndAt(s: string, n: nat)
    requires n <= |s| && AllWhite(s[n..]) && (n > 0 ==> !IsWhite(s[n - 1]))
    ensures TrimEnd(s) == s[..n]
  {
    if n < |s| {
      var m := |s| - 1;
      var end, rest := s[n..], s[..m][n..];
      assert end[m - n] == s[m];
      forall i | 0 <= i < |rest| ensures IsWhite(rest[i]) {
        assert rest[i] == end[i];
      }
      TrimEndAt(s[..m], n);
      assert s[..m][..n] == s[..n];
    } else {
      assert s[..n] == s;
    }
  }

  /** Where the white prefix ends. */
  lemma {:induction false} WhitePrefix(s: string) returns (n: nat)
    ensures n <= |s| && AllWhite(s[..n]) && (n < |s| ==> !IsWhite(s[n]))
  {
    n := 0;
    if s != [] && IsWhite(s[0]) {
      var m := WhitePrefix(s[1..]);
      n := m + 1;
      var front, rest := s[..n], s[1..][..m];
      forall i | 0 <= i < n ensures IsWhite(front[i]) {
        assert i > 0 ==> front[i] == rest[i - 1];
      }
    }
  }

  lemma BlankIff(s: string)
    ensures IsBlank(s) <==> AllWhite(s)
  {
    var n := WhitePrefix(s);
    TrimStartAt(s, n);
    assert n == |s| ==> s[..n] == s;
  }

  /** Three backticks behind the blanks. */
  ghost predicate HasTicks(s: string) {
    exists n :: 0 <= n && n + 3 <= |s| && AllWhite(s[..n]) && s[n..n + 3] == "```"
  }

  lemma FenceIff(s: string)
    ensures IsFence(s) <==> exists n :: 0 <= n && n + 3 <= |s| && AllWhite(s[..n]) && s[n..n + 3] == "```"
  {
    if IsFence(s) {
      var n := WhitePrefix(s);
      TrimStartAt(s, n);
      assert s[n..][..3] == "```" && s[n..][..3] == s[n..n + 3];
    }
    if n :| 0 <= n && n + 3 <= |s| && AllWhite(s[..n]) && s[n..n + 3] == "```" {
      assert s[n] == s[n..n + 3][0] == '`';
      TrimStartAt(s, n);
      assert s[n..][..3] == s[n..n + 3];
    }
  }

  // ----- a block, line by line

  /** A line of three backticks, a blank line, or any other. */
  datatype Kind = Ticks | Blank | Words

  ghost function KindOf(line: Line): Kind {
    if HasTicks(line.content) then Ticks else if AllWhite(line.content) then Blank else Words
  }

  ghost function Kinds(body: seq<Line>): (ks: seq<Kind>)
    ensures |ks| == |body| && forall i :: 0 <= i < |body| ==> ks[i] == KindOf(body[i])
  {
    seq(|body|, i requires 0 <= i < |body| => KindOf(body[i]))
  }

  lemma KindSpelled(line: Line)
    ensures KindOf(line) == Ticks <==> IsFence(line.content)
    ensures KindOf(line) == Blank <==> IsBlank(line.content)
  {
    var s := line.content;
    FenceIff(s);
    BlankIff(s);
  }

  /** The fence lines before line `i`. */
  function TicksBefore(ks: seq<Kind>, i: nat): set<nat>
    requires i <= |ks|
  {
    set j | 0 <= j < i && ks[j] == Ticks
  }

  /** Fence lines open and close in turn: an odd number of them before a line leaves it fenced. */
  predicate Fenced(ks: seq<Kind>, i: nat)
    requires i <= |ks|
  {
    |TicksBefore(ks, i)| % 2 == 1
  }

  /** Is the line before `i` a blank one outside fences? */
  predicate AfterBlank(ks: seq<Kind>, i: nat)
    requires i <= |ks|
  {
    i > 0 && ks[i - 1] == Blank && !Fenced(ks, i - 1)
  }

  /** Does anything but blank lines follow, from line `i` on? */
  predicate TextFollows(ks: seq<Kind>, i: nat)
    requires i <= |ks|
  {
    exists j :: i <= j < |ks| && ks[j] != Blank
  }

  function TrimmedAtEnd(line: Line): Line {
    Line(TrimEnd(line.content), line.ending)
  }

  /**
   * What comes back of line `i`: a fenced line whole; text, and the line that opens
   * a fence, trimmed at its end; of a run of blank lines the first, emptied, when
   * text follows.
   */
  function ComesBack(body: seq<Line>, ks: seq<Kind>, i: nat): seq<Line>
    requires i < |body| == |ks|
  {
    if Fenced(ks, i) then [body[i]]
    else if ks[i] != Blank then [TrimmedAtEnd(body[i])]
    else if !AfterBlank(ks, i) && TextFollows(ks, i + 1) then [Line("", body[i].ending)]
    else []
  }

  /** What comes back from line `i` on. */
  function From(body: seq<Line>, ks: seq<Kind>, i: nat): seq<Line>
    requires i <= |body| == |ks|
    decreases |body| - i
  {
    if i == |body| then [] else ComesBack(body, ks, i) + From(body, ks, i + 1)
  }

  /** What comes back of a block. */
  ghost function Block(body: seq<Line>): seq<Line> {
    From(body, Kinds(body), 0)
  }

  lemma FencedNext(ks: seq<Kind>, i: nat)
    requires i < |ks|
    ensures Fenced(ks, i + 1) <==> (Fenced(ks, i) != (ks[i] == Ticks))
  {
    if ks[i] == Ticks {
      assert TicksBefore(ks, i + 1) == TicksBefore(ks, i) + {i};
    } else {
      assert TicksBefore(ks, i + 1) == TicksBefore(ks, i);
    }
  }

  /** The blank line held back before line `i`. */
  function HeldAt(body: seq<Line>, ks: seq<Kind>, i: nat): (held: seq<Line>)
    requires i <= |body| == |ks|
    ensures held == [] <==> !AfterBlank(ks, i)
  {
    if !AfterBlank(ks, i) then []
    else if AfterBlank(ks, i - 1) then HeldAt(body, ks, i - 1)
    else [Line("", body[i - 1].ending)]
  }

  function StateAt(key: nat, body: seq<Line>, ks: seq<Kind>, i: nat): State
    requires i <= |body| == |ks|
  {
    Inside(key, Fenced(ks, i), HeldAt(body, ks, i))
  }

  /** What is held comes back with the next text. */
  function HeldBack(body: seq<Line>, ks: seq<Kind>, i: nat): seq<Line>
    requires i <= |body| == |ks|
  {
    if TextFollows(ks, i) then HeldAt(body, ks, i) else []
  }

  /** In a fence nothing is held. */
  lemma FencedHoldsNothing(ks: seq<Kind>, i: nat)
    requires i <= |ks| && Fenced(ks, i)
    ensures !AfterBlank(ks, i)
  {
    if i > 0 {
      FencedNext(ks, i - 1);
    }
  }

  lemma StateStep(key: nat, body: seq<Line>, ks: seq<Kind>, i: nat)
    requires i < |body| == |ks| && ks[i] == KindOf(body[i]) && InBody(key, body[i])
    ensures Next(StateAt(key, body, ks, i), body[i]) == StateAt(key, body, ks, i + 1)
  {
    FencedNext(ks, i);
    KindSpelled(body[i]);
    if Fenced(ks, i) {
      FencedHoldsNothing(ks, i);
    }
  }

  lemma HeldStep(key: nat, body: seq<Line>, ks: seq<Kind>, i: nat)
    requires i < |body| == |ks| && ks[i] == KindOf(body[i]) && InBody(key, body[i])
    ensures Emitted(StateAt(key, body, ks, i), body[i]) + HeldBack(body, ks, i + 1)
         == HeldBack(body, ks, i) + ComesBack(body, ks, i)
  {
    KindSpelled(body[i]);
    if Fenced(ks, i) {
      FencedHoldsNothing(ks, i);
    } else if ks[i] == Blank {
      assert TextFollows(ks, i) <==> TextFollows(ks, i + 1);
    } else {
      assert TextFollows(ks, i);
    }
  }

  /** The formatter and the reference agree from line `i` on. */
  ghost predicate AgreeFrom(key: nat, body: seq<Line>, ks: seq<Kind>, i: nat)
    requires i <= |body| == |ks|
  {
    Emit(StateAt(key, body, ks, i), body[i..]) == HeldBack(body, ks, i) + From(body, ks, i)
  }

  lemma AgreeStep(key: nat, body: seq<Line>, ks: seq<Kind>, i: nat)
    requires i < |body| == |ks| && ks[i] == KindOf(body[i]) && InBody(key, body[i])
    requires AgreeFrom(key, body, ks, i + 1)
    ensures AgreeFrom(key, body, ks, i)
  {
    var s, line, rest := StateAt(key, body, ks, i), body[i], body[i + 1..];
    assert body[i..][1..] == rest && body[i..][0] == line;
    StateStep(key, body, ks, i);
    HeldStep(key, body, ks, i);
    Reassociate(Emitted(s, line), HeldBack(body, ks, i + 1), From(body, ks, i + 1));
    Reassociate(HeldBack(body, ks, i), ComesBack(body, ks, i), From(body, ks, i + 1));
  }

  lemma AgreeAtEnd(key: nat, body: seq<Line>, ks: seq<Kind>)
    requires |body| == |ks|
    ensures AgreeFrom(key, body, ks, |body|)
  {
    assert !TextFollows(ks, |body|);
  }

  ghost predicate AllInBody(key: nat, body: seq<Line>) {
    forall j :: 0 <= j < |body| ==> InBody(key, body[j])
  }

  lemma AgreeAtLine(key: nat, body: seq<Line>, i: nat)
    requires i < |body| && AllInBody(key, body) && AgreeFrom(key, body, Kinds(body), i + 1)
    ensures AgreeFrom(key, body, Kinds(body), i)
  {
    assert Kinds(body)[i] == KindOf(body[i]) && InBody(key, body[i]);
    AgreeStep(key, body, Kinds(body), i);
  }

  lemma {:induction false} Agree(key: nat, body: seq<Line>, i: nat)
    requires i <= |body| && AllInBody(key, body)
    ensures AgreeFrom(key, body, Kinds(body), i)
    decreases |body| - i
  {
    if i == |body| {
      AgreeAtEnd(key, body, Kinds(body));
    } else {
      AgreeNext(key, body, i);
    }
  }

  lemma {:induction false} AgreeNext(key: nat, body: seq<Line>, i: nat)
    requires i < |body| && AllInBody(key, body)
    ensures AgreeFrom(key, body, Kinds(body), i)
    decreases |body| - i, 0
  {
    Agree(key, body, i + 1);
    AgreeAtLine(key, body, i);
  }

  lemma StartState(key: nat, body: seq<Line>, ks: seq<Kind>)
    requires |body| == |ks|
    ensures StateAt(key, body, ks, 0) == Inside(key, false, []) && HeldBack(body, ks, 0) == []
  {
    assert TicksBefore(ks, 0) == {};
  }

  /** The formatter's output for a block is what comes back of each line, in order. */
  lemma BlockIsReference(key: nat, body: seq<Line>)
    requires AllInBody(key, body)
    ensures Emit(Inside(key, false, []), body) == Block(body)
  {
    Agree(key, body, 0);
    StartState(key, body, Kinds(body));
    WholeBlock(body, Block(body));
  }

  lemma WholeBlock(body: seq<Line>, block: seq<Line>)
    ensures body[0..] == body && [] + block == block
  {
  }

  // ----- a whole pack

  /** A line belongs to the block when it is blank or deeper than the key's line. */
  predicate Belongs(key: nat, line: Line) {
    AllWhite(line.content) || Indent(line.content) > key
  }

  lemma BelongsIff(key: nat, line: Line)
    ensures Belongs(key, line) <==> InBody(key, line)
  {
    BlankIff(line.content);
  }

  /** Where the block that starts at line `i` ends. */
  function BlockEnd(key: nat, lines: seq<Line>, i: nat): (e: nat)
    requires i <= |lines|
    ensures i <= e <= |lines| && (e < |lines| ==> !Belongs(key, lines[e]))
    ensures forall j :: i <= j < e ==> Belongs(key, lines[j])
    decreases |lines| - i
  {
    if i < |lines| && Belongs(key, lines[i]) then BlockEnd(key, lines, i + 1) else i
  }

  /** The pack, block by block: everything else as it is. */
  ghost function Formatted(lines: seq<Line>, i: nat): seq<Line>
    requires i <= |lines|
    decreases |lines| - i
  {
    if i == |lines| then []
    else if !IsHeader(lines[i].content) then [lines[i]] + Formatted(lines, i + 1)
    else
      var end := BlockEnd(Indent(lines[i].content), lines, i + 1);
      [lines[i]] + (Block(lines[i + 1..end]) + Formatted(lines, end))
  }

  /** A block and what follows it. */
  lemma BodyThen(key: nat, body: seq<Line>, rest: seq<Line>)
    requires forall j :: 0 <= j < |body| ==> Belongs(key, body[j])
    requires rest != [] ==> !Belongs(key, rest[0])
    ensures Emit(Inside(key, false, []), body + rest) == Block(body) + Emit(Outside, rest)
  {
    forall j | 0 <= j < |body| ensures InBody(key, body[j]) {
      BelongsIff(key, body[j]);
    }
    if rest != [] {
      BelongsIff(key, rest[0]);
    }
    BlockEnds(Inside(key, false, []), body, rest);
    BlockIsReference(key, body);
  }

  lemma HeaderOpens(line: Line, rest: seq<Line>)
    requires IsHeader(line.content)
    ensures Emit(Outside, [line] + rest) == [line] + Emit(Inside(Indent(line.content), false, []), rest)
  {
    assert ([line] + rest)[1..] == rest;
  }

  lemma OtherPasses(line: Line, rest: seq<Line>)
    requires !IsHeader(line.content)
    ensures Emit(Outside, [line] + rest) == [line] + Emit(Outside, rest)
  {
    assert ([line] + rest)[1..] == rest;
  }

  /** A header, its block and what follows. */
  lemma BlockThen(line: Line, body: seq<Line>, rest: seq<Line>)
    requires IsHeader(line.content)
    requires forall j :: 0 <= j < |body| ==> Belongs(Indent(line.content), body[j])
    requires rest != [] ==> !Belongs(Indent(line.content), rest[0])
    ensures Emit(Outside, [line] + (body + rest)) == [line] + (Block(body) + Emit(Outside, rest))
  {
    BodyThen(Indent(line.content), body, rest);
    HeaderOpens(line, body + rest);
  }

  lemma BlockParts(key: nat, lines: seq<Line>, i: nat) returns (body: seq<Line>, rest: seq<Line>)
    requires i < |lines|
    ensures var end := BlockEnd(key, lines, i + 1);
            body == lines[i + 1..end] && rest == lines[end..] && lines[i..] == [lines[i]] + (body + rest)
    ensures forall j :: 0 <= j < |body| ==> Belongs(key, body[j])
    ensures rest != [] ==> !Belongs(key, rest[0])
  {
    var end := BlockEnd(key, lines, i + 1);
    body, rest := lines[i + 1..end], lines[end..];
    forall j | 0 <= j < |body| ensures Belongs(key, body[j]) {
      assert body[j] == lines[i + 1 + j];
    }
  }

  /** The formatter is its reference on every sequence of lines. */
  lemma {:induction false} EmitIsFormatted(lines: seq<Line>, i: nat)
    requires i <= |lines|
    ensures Emit(Outside, lines[i..]) == Formatted(lines, i)
    decreases |lines| - i
  {
    if i < |lines| {
      if IsHeader(lines[i].content) {
        var key := Indent(lines[i].content);
        var body, rest := BlockParts(key, lines, i);
        BlockThen(lines[i], body, rest);
        EmitIsFormatted(lines, BlockEnd(key, lines, i + 1));
      } else {
        EmitIsFormatted(lines, i + 1);
        assert lines[i..] == [lines[i]] + lines[i + 1..];
        OtherPasses(lines[i], lines[i + 1..]);
      }
    }
  }

  // ----- what that means for fences

  /** A block's output up to a line, and from it on. */
  lemma {:induction false} FromSplits(body: seq<Line>, ks: seq<Kind>, i: nat) returns (before: seq<Line>)
    requires i <= |body| == |ks|
    ensures From(body, ks, 0) == before + From(body, ks, i)
  {
    if i == 0 {
      before := [];
    } else {
      before := FromSplits(body, ks, i - 1);
      Reassociate(before, ComesBack(body, ks, i - 1), From(body, ks, i));
      before := before + ComesBack(body, ks, i - 1);
    }
  }

  predicate AllFenced(ks: seq<Kind>, i: nat, j: nat)
    requires j <= |ks|
  {
    forall k :: i <= k < j ==> Fenced(ks, k)
  }

  /** Lines in one fence come back whole. */
  lemma {:induction false} FenceRun(body: seq<Line>, ks: seq<Kind>, i: nat, j: nat)
    requires i <= j <= |body| == |ks| && AllFenced(ks, i, j)
    ensures From(body, ks, i) == body[i..j] + From(body, ks, j)
    decreases j - i
  {
    if i < j {
      FenceRun(body, ks, i + 1, j);
      assert body[i..j] == [body[i]] + body[i + 1..j];
      Reassociate([body[i]], body[i + 1..j], From(body, ks, j));
    }
  }

  predicate NoTicksBetween(ks: seq<Kind>, i: nat, j: nat)
    requires j <= |ks|
  {
    forall k :: i < k < j ==> ks[k] != Ticks
  }

  lemma {:induction false} FencedUntil(ks: seq<Kind>, i: nat, j: nat)
    requires i < j < |ks| && ks[i] == Ticks && !Fenced(ks, i) && NoTicksBetween(ks, i, j)
    ensures Fenced(ks, j)
  {
    FencedNext(ks, j - 1);
    if j > i + 1 {
      FencedUntil(ks, i, j - 1);
    }
  }

  /** An opening line and all that is fenced after it. */
  lemma OpenerAndFence(body: seq<Line>, ks: seq<Kind>, i: nat, j: nat)
    requires i < j < |body| == |ks| && ks[i] == Ticks && !Fenced(ks, i) && NoTicksBetween(ks, i, j)
    ensures From(body, ks, i) == [TrimmedAtEnd(body[i])] + (body[i + 1..j + 1] + From(body, ks, j + 1))
  {
    AllFencedUntil(ks, i, j);
    FenceRun(body, ks, i + 1, j + 1);
  }

  lemma AllFencedUntil(ks: seq<Kind>, i: nat, j: nat)
    requires i < j < |ks| && ks[i] == Ticks && !Fenced(ks, i) && NoTicksBetween(ks, i, j)
    ensures forall k :: i < k < j + 1 ==> Fenced(ks, k)
  {
    forall k | i < k < j + 1 ensures Fenced(ks, k) {
      FencedUntil(ks, i, k);
    }
  }

  /** Every line of the block is blank, or indented deeper than its key's line. */
  ghost predicate IsBody(key: nat, body: seq<Line>) {
    forall k :: 0 <= k < |body| ==> AllWhite(body[k].content) || Indent(body[k].content) > key
  }

  /** The block's output in two parts. */
  lemma BlockAround(key: nat, body: seq<Line>, i: nat) returns (before: seq<Line>)
    requires IsBody(key, body) && i <= |body|
    ensures Emit(Inside(key, false, []), body) == before + From(body, Kinds(body), i)
  {
    forall k | 0 <= k < |body| ensures InBody(key, body[k]) {
      BelongsIff(key, body[k]);
    }
    BlockIsReference(key, body);
    before := FromSplits(body, Kinds(body), i);
  }

  /**
   * From a line of three backticks that opens a fence on, every line of a block up
   * to and including the next such line comes back with its own content and
   * terminator, in one piece; without a next one, the rest of the block.
   */
  lemma FenceKept(key: nat, body: seq<Line>, i: nat, j: nat) returns (before: seq<Line>, after: seq<Line>)
    requires IsBody(key, body) && i < j < |body|
    requires HasTicks(body[i].content) && forall k :: i < k < j ==> !HasTicks(body[k].content)
    requires |set k | 0 <= k < i && HasTicks(body[k].content)| % 2 == 0
    ensures Emit(Inside(key, false, []), body)
         == before + ([Line(TrimEnd(body[i].content), body[i].ending)] + (body[i + 1..j + 1] + after))
  {
    var ks := Kinds(body);
    assert TicksBefore(ks, i) == set k | 0 <= k < i && HasTicks(body[k].content);
    before := BlockAround(key, body, i);
    after := From(body, ks, j + 1);
    OpenerAndFence(body, ks, i, j);
  }

  lemma UnfencedFrom(body: seq<Line>, ks: seq<Kind>, i: nat)
    requires i < |body| == |ks| && ks[i] != Blank && forall k :: 0 <= k < i ==> ks[k] != Ticks
    ensures From(body, ks, i) == [TrimmedAtEnd(body[i])] + From(body, ks, i + 1)
  {
    assert TicksBefore(ks, i) == {};
  }

  /** Text with no line of three backticks before it comes back trimmed at its end. */
  lemma UnfencedTrimmed(key: nat, body: seq<Line>, i: nat) returns (before: seq<Line>, after: seq<Line>)
    requires IsBody(key, body) && i < |body| && !AllWhite(body[i].content)
    requires forall k :: 0 <= k < i ==> !HasTicks(body[k].content)
    ensures Emit(Inside(key, false, []), body)
         == before + ([Line(TrimEnd(body[i].content), body[i].ending)] + after)
  {
    before := BlockAround(key, body, i);
    after := From(body, Kinds(body), i + 1);
    assert Kinds(body)[i] == KindOf(body[i]) != Blank;
    UnfencedFrom(body, Kinds(body), i);
  }

  // ----- the header of a block

  /** A `hurl` key with a literal block scalar, in any spelling the loader accepts. */
  datatype Header = Header(indent: string, dash: string, gap: string, signs: string, digits: string,
                           space: string, comment: string)
  {
    function Text(): string {
      indent + (dash + ("hurl:" + (gap + ("|" + (signs + (digits + (space + comment)))))))
    }

    ghost predicate Fits() {
      && AllWhite(indent) && AllWhite(gap) && AllWhite(space)
      && (dash == "" || dash == "- ")
      && (forall i :: 0 <= i < |signs| ==> signs[i] == '-' || signs[i] == '+')
      && (forall i :: 0 <= i < |digits| ==> '0' <= digits[i] <= '9')
      && (comment == "" || comment[0] == '#')
    }
  }

  lemma WhiteThen(w: string, rest: string)
    requires AllWhite(w) && (rest != "" ==> !IsWhite(rest[0]))
    ensures TrimStart(w + rest) == rest
  {
    assert (w + rest)[..|w|] == w && (w + rest)[|w|..] == rest;
    TrimStartAt(w + rest, |w|);
  }

  lemma {:induction false} SignsThen(signs: string, rest: string)
    requires forall i :: 0 <= i < |signs| ==> signs[i] == '-' || signs[i] == '+'
    requires rest != "" ==> rest[0] != '-' && rest[0] != '+'
    ensures SkipSigns(signs + rest) == rest
  {
    if signs == "" {
      assert signs + rest == rest;
    } else {
      assert (signs + rest)[1..] == signs[1..] + rest;
      SignsThen(signs[1..], rest);
    }
  }

  lemma {:induction false} DigitsThen(digits: string, rest: string)
    requires forall i :: 0 <= i < |digits| ==> '0' <= digits[i] <= '9'
    requires rest != "" ==> !('0' <= rest[0] <= '9')
    ensures SkipDigits(digits + rest) == rest
  {
    if digits == "" {
      assert digits + rest == rest;
    } else {
      assert (digits + rest)[1..] == digits[1..] + rest;
      DigitsThen(digits[1..], rest);
    }
  }

  lemma StartOf(a: string, b: string)
    ensures a + b != "" ==> (a + b)[0] == if a != "" then a[0] else b[0]
  {
  }

  lemma DigitsAndTail(digits: string, space: string, comment: string)
    requires AllWhite(space) && (comment == "" || comment[0] == '#')
    requires forall i :: 0 <= i < |digits| ==> '0' <= digits[i] <= '9'
    ensures TrimStart(SkipDigits(digits + (space + comment))) == comment
  {
    StartOf(space, comment);
    DigitsThen(digits, space + comment);
    WhiteThen(space, comment);
  }

  lemma TailThen(h: Header)
    requires h.Fits()
    ensures TrimStart(SkipDigits(SkipSigns(h.signs + (h.digits + (h.space + h.comment))))) == h.comment
  {
    var tail := h.space + h.comment;
    StartOf(h.space, h.comment);
    StartOf(h.digits, tail);
    SignsThen(h.signs, h.digits + tail);
    DigitsAndTail(h.digits, h.space, h.comment);
  }

  lemma SpelledIsHeader(h: Header)
    requires h.Fits()
    ensures IsHeader(h.Text())
  {
    var tail := h.signs + (h.digits + (h.space + h.comment));
    var value := "|" + tail;
    var key := "hurl:" + (h.gap + value);
    TailThen(h);
    WhiteThen(h.gap, value);
    assert value[1..] == tail && value[0] == '|';
    assert key[5..] == h.gap + value && key[..5] == "hurl:" && key[0] == 'h';
    var line := h.dash + key;
    assert line[0] == 'h' || line[0] == '-';
    WhiteThen(h.indent, line);
    if h.dash == "" {
      assert line == key && key[0] != '-';
    } else {
      assert line[..2] == "- " && line[2..] == key;
    }
  }

  lemma {:induction false} SignsOf(s: string) returns (signs: string)
    ensures s == signs + SkipSigns(s) && forall i :: 0 <= i < |signs| ==> signs[i] == '-' || signs[i] == '+'
  {
    signs := "";
    if s != [] && (s[0] == '-' || s[0] == '+') {
      var more := SignsOf(s[1..]);
      signs := [s[0]] + more;
      assert s == [s[0]] + s[1..];
    }
  }

  lemma {:induction false} DigitsOf(s: string) returns (digits: string)
    ensures s == digits + SkipDigits(s) && forall i :: 0 <= i < |digits| ==> '0' <= digits[i] <= '9'
  {
    digits := "";
    if s != [] && '0' <= s[0] <= '9' {
      var more := DigitsOf(s[1..]);
      digits := [s[0]] + more;
      assert s == [s[0]] + s[1..];
    }
  }

  lemma WhiteOf(s: string) returns (w: string)
    ensures s == w + TrimStart(s) && AllWhite(w)
  {
    var n := WhitePrefix(s);
    TrimStartAt(s, n);
    w := s[..n];
  }

  lemma HeaderIsSpelled(line: string) returns (h: Header)
    requires IsHeader(line)
    ensures h.Fits() && h.Text() == line
  {
    var indent := WhiteOf(line);
    var trimmed := TrimStart(line);
    var dash := if "- " <= trimmed then "- " else "";
    var key := trimmed[|dash|..];
    assert trimmed == dash + key;
    var gap := WhiteOf(key[5..]);
    var value := TrimStart(key[5..]);
    assert key == "hurl:" + (gap + value) && value == "|" + value[1..];
    var signs := SignsOf(value[1..]);
    var digits := DigitsOf(SkipSigns(value[1..]));
    var space := WhiteOf(SkipDigits(SkipSigns(value[1..])));
    h := Header(indent, dash, gap, signs, digits, space, TrimStart(SkipDigits(SkipSigns(value[1..]))));
  }

  /** What opens a block: exactly these spellings. */
  lemma HeaderIff(line: string)
    ensures IsHeader(line) <==> exists h: Header :: h.Fits() && h.Text() == line
  {
    if IsHeader(line) {
      var h := HeaderIsSpelled(line);
    }
    if h: Header :| h.Fits() && h.Text() == line {
      SpelledIsHeader(h);
    }
  }

  // ----- the ending a missing final newline is supplied with

  ghost function LineFeeds(s: string): set<nat> {
    set i | 0 <= i < |s| && s[i] == '\n'
  }

  ghost function CarriageReturns(s: string): set<nat> {
    set i {:trigger s[i]} | 0 <= i < |s| - 1 && s[i] == '\r' && s[i + 1] == '\n'
  }

  lemma OneMoreLineFeed(s: string)
    requires s != []
    ensures |LineFeeds(s)| == |LineFeeds(s[..|s| - 1])| + if s[|s| - 1] == '\n' then 1 else 0
  {
    var n := |s| - 1;
    if s[n] == '\n' {
      assert LineFeeds(s) == LineFeeds(s[..n]) + {n};
    } else {
      assert LineFeeds(s) == LineFeeds(s[..n]);
    }
  }

  lemma OneMoreReturn(s: string)
    requires |s| >= 2
    ensures |CarriageReturns(s)|
         == |CarriageReturns(s[..|s| - 1])| + if s[|s| - 2] == '\r' && s[|s| - 1] == '\n' then 1 else 0
  {
    var n := |s| - 1;
    if s[n - 1] == '\r' && s[n] == '\n' {
      assert CarriageReturns(s) == CarriageReturns(s[..n]) + {n - 1};
    } else {
      assert CarriageReturns(s) == CarriageReturns(s[..n]);
    }
  }

  lemma {:induction false} CountsAreSets(s: string)
    ensures CountLf(s) == |LineFeeds(s)| && CountCrLf(s) == |CarriageReturns(s)|
  {
    if s == [] {
      assert LineFeeds(s) == {} && CarriageReturns(s) == {};
    } else {
      CountsAreSets(s[..|s| - 1]);
      OneMoreLineFeed(s);
      if |s| == 1 {
        assert CarriageReturns(s) == {};
      } else {
        OneMoreReturn(s);
      }
    }
  }

  /** Carriage returns win when most line feeds follow one. */
  lemma DominantSpelled(text: string)
    ensures Dominant(text).Text()
         == if |set i {:trigger text[i]} | 0 <= i < |text| - 1 && text[i] == '\r' && text[i + 1] == '\n'|
             > |set i | 0 <= i < |text| && text[i] == '\n'|
               - |set i {:trigger text[i]} | 0 <= i < |text| - 1 && text[i] == '\r' && text[i + 1] == '\n'|
            then "\r\n" else "\n"
  {
    CountsAreSets(text);
    assert LineFeeds(text) == set i | 0 <= i < |text| && text[i] == '\n';
    assert CarriageReturns(text)
        == set i {:trigger text[i]} | 0 <= i < |text| - 1 && text[i] == '\r' && text[i + 1] == '\n';
  }

  lemma {:induction false} NoHeaderKept(lines: seq<Line>)
    requires forall i :: 0 <= i < |lines| ==> !IsHeader(lines[i].content)
    ensures Emit(Outside, lines) == lines
  {
    if lines != [] {
      NoHeaderKept(lines[1..]);
      OtherPasses(lines[0], lines[1..]);
      assert lines == [lines[0]] + lines[1..];
    }
  }

  lemma FinishCons(line: Line, rest: seq<Line>, e: Ending)
    requires rest != []
    ensures Finish([line] + rest, e) == [line] + Finish(rest, e)
  {
  }

  lemma {:induction false} FinishAppends(lines: seq<Line>, e: Ending)
    requires lines != [] && lines[|lines| - 1].ending == Bare
    ensures Join(Finish(lines, e)) == Join(lines) + e.Text()
  {
    var line, rest := lines[0], lines[1..];
    assert lines == [line] + rest;
    if rest == [] {
      JoinOne(line);
      JoinOne(Line(line.content, e));
      assert Finish(lines, e) == [Line(line.content, e)];
    } else {
      FinishAppends(rest, e);
      FinishCons(line, rest, e);
      JoinCons(line, rest);
      JoinCons(line, Finish(rest, e));
      Reassociate(line.Text(), Join(rest), e.Text());
    }
  }

  /** A text with no block comes back as it is, its final newline supplied. */
  lemma SkeletonOnly(text: string)
    requires forall i :: 0 <= i < |Lines(text)| ==> !IsHeader(Lines(text)[i].content)
    ensures Normalized(text) == if text == "" || text[|text| - 1] == '\n' then text else text + Dominant(text).Text()
  {
    var lines := Lines(text);
    NoHeaderKept(lines);
    TextEndsLf(text);
    JoinLines(text);
    if text != "" && text[|text| - 1] != '\n' {
      FinishAppends(lines, Dominant(text));
    }
  }
}
