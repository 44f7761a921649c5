// The reproduction command printed after a dry run, and the shell that reads it back.
module Commands {
  import opened Events

  // ----- the printer

  predicate IsSafe(c: char) {
    ('a' <= c <= 'z') || ('A' <= c <= 'Z') || ('0' <= c <= '9') || c in "._/-@:"
  }

  predicate AllSafe(s: string) {
    forall i :: 0 <= i < |s| ==> IsSafe(s[i])
  }

  /** Every single quote closed, escaped and reopened. */
  function EscapeQuotes(s: string): string {
    if s == [] then [] else (if s[0] == '\'' then "'\\''" else [s[0]]) + EscapeQuotes(s[1..])
  }

  function ShellQuote(value: string): string {
    if value != [] && AllSafe(value) then value
    else "'" + EscapeQuotes(value) + "'"
  }

  type Selector = (string, Option<string>)

  /** A text and one more argument, quoted. */
  function WithValue(text: string, value: Option<string>): string {
    if value.None? then text else text + (" " + ShellQuote(value.value))
  }

  /** The command's text: the path, then each selector given. */
  function CommandText(path: Option<string>, selectors: seq<Selector>): string {
    if selectors == [] then WithValue("proef test", path)
    else
      var (flag, value) := selectors[|selectors| - 1];
      var before := CommandText(path, selectors[..|selectors| - 1]);
      if value.None? then before else WithValue(before + (" " + flag), value)
  }

  function Selectors(tags: Option<string>, scenario: Option<string>, scenarioFile: Option<string>,
                     env: Option<string>): seq<Selector>
  {
    [("--env", env), ("--tags", tags), ("--scenario", scenario), ("--scenario-file", scenarioFile)]
  }

  method NextCommand(path: Option<string>, tags: Option<string>, scenario: Option<string>,
                     scenarioFile: Option<string>, env: Option<string>) returns (out: string)
    ensures out == CommandText(path, Selectors(tags, scenario, scenarioFile, env))
    ensures Words(out) == Some(["proef", "test"] + One(path) + Pair("--env", env) + Pair("--tags", tags)
                               + Pair("--scenario", scenario) + Pair("--scenario-file", scenarioFile))
  {
    out := "proef test";
    if path.Some? {
      out := out + (" " + ShellQuote(path.value));
    }
    var selectors := Selectors(tags, scenario, scenarioFile, env);
    for i := 0 to |selectors|
      invariant out == CommandText(path, selectors[..i])
    {
      CommandMore(path, selectors, i);
      var (flag, value) := selectors[i];
      if value.Some? {
        out := out + (" " + flag);
        out := out + (" " + ShellQuote(value.value));
      }
    }
    assert selectors[..|selectors|] == selectors;
    PastedCommandIsTheCommand(path, tags, scenario, scenarioFile, env);
  }

  lemma CommandMore(path: Option<string>, selectors: seq<Selector>, i: nat)
    requires i < |selectors|
    ensures CommandText(path, selectors[..i + 1])
         == if selectors[i].1.None? then CommandText(path, selectors[..i])
            else WithValue(CommandText(path, selectors[..i]) + (" " + selectors[i].0), selectors[i].1)
  {
    assert selectors[..i + 1][..i] == selectors[..i];
  }

  // ----- the reader

  datatype Mode = Plain | Escaped | Quoted

  /**
   * A shell reading words: those complete, the one under way, and the quoting
   * in force. `Bad` is anything the quoting rules do not make literal.
   */
  datatype Shell = Shell(words: seq<string>, word: Option<string>, mode: Mode) | Bad

  /** The characters section 2.2 of the POSIX.1-2017 Shell Command Language wants quoted, always or at times. */
  predicate IsSpecial(c: char) {
    c in "|&;<>()$`\\\"' \t\n" || c in "*?[#~=%"
  }

  function Append(word: Option<string>, c: char): Option<string> {
    Some((if word.Some? then word.value else "") + [c])
  }

  function Feed(sh: Shell, c: char): Shell {
    if sh.Bad? then Bad
    else match sh.mode
      case Quoted =>
        if c == '\'' then sh.(mode := Plain) else sh.(word := Append(sh.word, c))
      case Escaped =>
        if c == '\n' then sh.(mode := Plain) else sh.(word := Append(sh.word, c), mode := Plain)
      case Plain =>
        if c == ' ' || c == '\t' then
          Shell(if sh.word.Some? then sh.words + [sh.word.value] else sh.words, None, Plain)
        else if c == '\'' then
          sh.(word := Some(if sh.word.Some? then sh.word.value else ""), mode := Quoted)
        else if c == '\\' then sh.(mode := Escaped)
        else if IsSpecial(c) then Bad
        else sh.(word := Append(sh.word, c))
  }

  function FeedAll(sh: Shell, s: string): Shell
    decreases |s|
  {
    if s == [] then sh else FeedAll(Feed(sh, s[0]), s[1..])
  }

  /** The words of a command line, if every character of it is literal, blank or quoting. */
  function Words(s: string): Option<seq<string>> {
    var sh := FeedAll(Shell([], None, Plain), s);
    if sh.Bad? || sh.mode != Plain then None
    else Some(if sh.word.Some? then sh.words + [sh.word.value] else sh.words)
  }

  /** The argument, if there is one. */
  function One(value: Option<string>): seq<string> {
    if value.Some? then [value.value] else []
  }

  /** The flag and its argument, if there is one. */
  function Pair(flag: string, value: Option<string>): seq<string> {
    if value.Some? then [flag, value.value] else []
  }

  // ----- the reader undoes the printer

  /** Only what is made of letters, digits and six marks is printed as it is. */
  lemma UnquotedIff(value: string)
    ensures ShellQuote(value) == value <==>
            && value != ""
            && forall i :: 0 <= i < |value| ==>
                 'a' <= value[i] <= 'z' || 'A' <= value[i] <= 'Z' || '0' <= value[i] <= '9'
                 || value[i] in ['.', '_', '/', '-', '@', ':']
  {
    EscapedNoShorter(value);
  }

  lemma {:induction false} EscapedNoShorter(value: string)
    ensures |EscapeQuotes(value)| >= |value|
  {
    if value != [] {
      EscapedNoShorter(value[1..]);
    }
  }

  /** Outside quotes the reader takes none of these as itself. */
  lemma UnquotedIsBad(words: seq<string>, word: Option<string>, c: char)
    requires c in ['|', '&', ';', '<', '>', '(', ')', '$', '`', '"', '\n', '*', '?', '[', '#', '~', '=', '%']
    ensures Feed(Shell(words, word, Plain), c) == Bad
  {
  }

  lemma SafeIsLiteral(c: char)
    requires IsSafe(c)
    ensures !IsSpecial(c)
  {
  }

  lemma {:induction false} FeedConcat(sh: Shell, a: string, b: string)
    ensures FeedAll(sh, a + b) == FeedAll(FeedAll(sh, a), b)
    decreases |a|
  {
    if a == [] {
      assert a + b == b;
    } else {
      assert (a + b)[1..] == a[1..] + b;
      FeedConcat(Feed(sh, a[0]), a[1..], b);
    }
  }

  lemma FeedOne(sh: Shell, c: char)
    ensures FeedAll(sh, [c]) == Feed(sh, c)
  {
    assert [c][1..] == [];
  }

  lemma FeedQuoteQuad(words: seq<string>, w: string)
    ensures FeedAll(Shell(words, Some(w), Quoted), "'\\''") == Shell(words, Some(w + "'"), Quoted)
  {
    var s := "'\\''";
    assert s[1..] == "\\''" && s[1..][1..] == "''" && s[1..][1..][1..] == "'" && s[1..][1..][1..][1..] == [];
    var sh0 := Shell(words, Some(w), Quoted);
    var sh1 := Feed(sh0, '\'');
    var sh2 := Feed(sh1, '\\');
    var sh3 := Feed(sh2, '\'');
    var sh4 := Feed(sh3, '\'');
    assert sh4 == Shell(words, Some(w + "'"), Quoted);
    assert FeedAll(sh3, "'") == sh4;
    assert FeedAll(sh2, "''") == sh4;
  }

  lemma {:induction false} FeedEscaped(words: seq<string>, w: string, v: string)
    ensures FeedAll(Shell(words, Some(w), Quoted), EscapeQuotes(v)) == Shell(words, Some(w + v), Quoted)
    decreases |v|
  {
    if v == [] {
      assert w + v == w;
    } else {
      var first := if v[0] == '\'' then "'\\''" else [v[0]];
      FeedConcat(Shell(words, Some(w), Quoted), first, EscapeQuotes(v[1..]));
      if v[0] == '\'' {
        FeedQuoteQuad(words, w);
      } else {
        FeedOne(Shell(words, Some(w), Quoted), v[0]);
      }
      assert w + v == (w + [v[0]]) + v[1..];
      FeedEscaped(words, w + [v[0]], v[1..]);
    }
  }

  lemma {:induction false} FeedSafe(words: seq<string>, w: string, v: string)
    requires AllSafe(v)
    ensures FeedAll(Shell(words, Some(w), Plain), v) == Shell(words, Some(w + v), Plain)
    decreases |v|
  {
    if v == [] {
      assert w + v == w;
    } else {
      assert w + v == (w + [v[0]]) + v[1..];
      SafeIsLiteral(v[0]);
      FeedSafe(words, w + [v[0]], v[1..]);
    }
  }

  lemma FeedFirst(words: seq<string>, c: char, rest: string)
    requires IsSafe(c)
    ensures FeedAll(Shell(words, None, Plain), [c] + rest) == FeedAll(Shell(words, Some([c]), Plain), rest)
  {
    SafeIsLiteral(c);
    assert "" + [c] == [c];
    assert ([c] + rest)[1..] == rest;
  }

  lemma SafeParts(v: string)
    requires v != [] && AllSafe(v)
    ensures IsSafe(v[0]) && AllSafe(v[1..])
  {
  }

  /** A safe word, read from a blank. */
  lemma FeedSafeWord(words: seq<string>, v: string)
    requires v != [] && AllSafe(v)
    ensures FeedAll(Shell(words, None, Plain), v) == Shell(words, Some(v), Plain)
  {
    assert v == [v[0]] + v[1..];
    SafeParts(v);
    FeedFirst(words, v[0], v[1..]);
    FeedSafe(words, [v[0]], v[1..]);
  }

  /** Whatever the value, its quoted form reads back as one word, the value. */
  lemma FeedQuotedValue(words: seq<string>, v: string)
    ensures FeedAll(Shell(words, None, Plain), ShellQuote(v)) == Shell(words, Some(v), Plain)
  {
    if v != [] && AllSafe(v) {
      FeedSafeWord(words, v);
    } else {
      var start := Shell(words, None, Plain);
      FeedConcat(start, "'" + EscapeQuotes(v), "'");
      FeedConcat(start, "'", EscapeQuotes(v));
      FeedOne(start, '\'');
      FeedEscaped(words, "", v);
      assert "" + v == v;
      FeedOne(Shell(words, Some(v), Quoted), '\'');
    }
  }

  /** A blank and a text that reads as one word. */
  lemma FeedNextWord(words: seq<string>, w: string, text: string, v: string)
    requires FeedAll(Shell(words + [w], None, Plain), text) == Shell(words + [w], Some(v), Plain)
    ensures FeedAll(Shell(words, Some(w), Plain), " " + text) == Shell(words + [w], Some(v), Plain)
  {
    FeedConcat(Shell(words, Some(w), Plain), " ", text);
    FeedOne(Shell(words, Some(w), Plain), ' ');
  }

  /** The words the command stands for. */
  function Arguments(path: Option<string>, selectors: seq<Selector>): (words: seq<string>)
    ensures |words| >= 2
  {
    if selectors == [] then
      if path.None? then ["proef", "test"] else ["proef", "test"] + [path.value]
    else
      var (flag, value) := selectors[|selectors| - 1];
      var before := Arguments(path, selectors[..|selectors| - 1]);
      if value.None? then before else (before + [flag]) + [value.value]
  }

  ghost predicate PlainFlags(selectors: seq<Selector>) {
    forall i :: 0 <= i < |selectors| ==>
      selectors[i].0 != [] && AllSafe(selectors[i].0)
  }

  type SomeWords = words: seq<string> | words != [] witness [""]

  /** A shell that has just read the last of `words`. */
  function Reading(words: SomeWords): Shell
  {
    Shell(words[..|words| - 1], Some(words[|words| - 1]), Plain)
  }

  lemma FeedMore(words: seq<string>, text: string, v: string)
    requires words != []
    requires FeedAll(Shell(words, None, Plain), text) == Shell(words, Some(v), Plain)
    ensures FeedAll(Reading(words), " " + text) == Reading(words + [v])
  {
    var n := |words| - 1;
    assert words == words[..n] + [words[n]];
    assert (words + [v])[..|words|] == words;
    FeedNextWord(words[..n], words[n], text, v);
  }

  /** One text after another. */
  lemma FeedThen(sh: Shell, a: string, mid: Shell, b: string, end: Shell)
    requires FeedAll(sh, a) == mid && FeedAll(mid, b) == end
    ensures FeedAll(sh, a + b) == end
  {
    FeedConcat(sh, a, b);
  }

  lemma FeedFlag(words: seq<string>, flag: string)
    requires words != [] && flag != [] && AllSafe(flag)
    ensures FeedAll(Reading(words), " " + flag) == Reading(words + [flag])
  {
    FeedSafeWord(words, flag);
    FeedMore(words, flag, flag);
  }

  lemma FeedValue(words: SomeWords, value: string)
    ensures FeedAll(Reading(words), " " + ShellQuote(value)) == Reading(words + [value])
  {
    FeedQuotedValue(words, value);
    FeedMore(words, ShellQuote(value), value);
  }

  lemma WithValueReads(start: Shell, text: string, words: seq<string>, value: string)
    requires words != [] && FeedAll(start, text) == Reading(words)
    ensures FeedAll(start, WithValue(text, Some(value))) == Reading(words + [value])
  {
    FeedValue(words, value);
    FeedThen(start, text, Reading(words), " " + ShellQuote(value), Reading(words + [value]));
  }

  lemma SelectorReads(start: Shell, text: string, words: seq<string>, flag: string, value: string)
    requires words != [] && flag != [] && AllSafe(flag)
    requires FeedAll(start, text) == Reading(words)
    ensures FeedAll(start, WithValue(text + (" " + flag), Some(value))) == Reading((words + [flag]) + [value])
  {
    FeedFlag(words, flag);
    FeedThen(start, text, Reading(words), " " + flag, Reading(words + [flag]));
    WithValueReads(start, text + (" " + flag), words + [flag], value);
  }

  lemma FeedTwoWords(a: string, b: string)
    requires a != [] && AllSafe(a) && b != [] && AllSafe(b)
    ensures FeedAll(Shell([], None, Plain), a + (" " + b)) == Reading([a] + [b])
  {
    FeedSafeWord([], a);
    FeedFlag([a], b);
    FeedThen(Shell([], None, Plain), a, Reading([a]), " " + b, Reading([a] + [b]));
  }

  lemma FeedProefTest()
    ensures FeedAll(Shell([], None, Plain), "proef test") == Reading(["proef", "test"])
  {
    FeedTwoWords("proef", "test");
    assert "proef" + (" " + "test") == "proef test";
    assert ["proef"] + ["test"] == ["proef", "test"];
  }

  lemma BareReads(path: Option<string>)
    ensures FeedAll(Shell([], None, Plain), CommandText(path, [])) == Reading(Arguments(path, []))
  {
    FeedProefTest();
    if path.Some? {
      WithValueReads(Shell([], None, Plain), "proef test", ["proef", "test"], path.value);
    }
  }

  lemma {:induction false} CommandReads(path: Option<string>, selectors: seq<Selector>)
    requires PlainFlags(selectors)
    ensures FeedAll(Shell([], None, Plain), CommandText(path, selectors)) == Reading(Arguments(path, selectors))
  {
    if selectors == [] {
      BareReads(path);
    } else {
      var n := |selectors| - 1;
      CommandReads(path, selectors[..n]);
      var (flag, value) := selectors[n];
      if value.Some? {
        SelectorReads(Shell([], None, Plain), CommandText(path, selectors[..n]), Arguments(path, selectors[..n]),
                      flag, value.value);
      }
    }
  }

  lemma FlagsPlain(tags: Option<string>, scenario: Option<string>, scenarioFile: Option<string>, env: Option<string>)
    ensures PlainFlags(Selectors(tags, scenario, scenarioFile, env))
  {
  }

  lemma WordsRead(text: string, words: seq<string>)
    requires words != [] && FeedAll(Shell([], None, Plain), text) == Reading(words)
    ensures Words(text) == Some(words)
  {
    assert words == words[..|words| - 1] + [words[|words| - 1]];
  }

  /** The words, one selector after another. */
  lemma ArgumentsSpelled(path: Option<string>, tags: Option<string>, scenario: Option<string>,
                         scenarioFile: Option<string>, env: Option<string>)
    ensures Arguments(path, Selectors(tags, scenario, scenarioFile, env))
         == ["proef", "test"] + One(path) + Pair("--env", env) + Pair("--tags", tags)
            + Pair("--scenario", scenario) + Pair("--scenario-file", scenarioFile)
  {
    var all := Selectors(tags, scenario, scenarioFile, env);
    ArgumentsMore(path, all, 1);
    ArgumentsMore(path, all, 2);
    ArgumentsMore(path, all, 3);
    ArgumentsMore(path, all, 4);
    assert all[..0] == [] && all[..4] == all;
    assert Arguments(path, []) == ["proef", "test"] + One(path);
  }

  lemma ArgumentsMore(path: Option<string>, selectors: seq<Selector>, n: nat)
    requires 0 < n <= |selectors|
    ensures Arguments(path, selectors[..n])
         == Arguments(path, selectors[..n - 1]) + Pair(selectors[n - 1].0, selectors[n - 1].1)
  {
    assert selectors[..n][..n - 1] == selectors[..n - 1];
    var (flag, value) := selectors[n - 1];
    if value.Some? {
      assert [flag] + [value.value] == [flag, value.value];
    }
  }

  /** Pasted back, the printed command is `proef test` with exactly the path and the selectors given. */
  lemma PastedCommandIsTheCommand(path: Option<string>, tags: Option<string>, scenario: Option<string>,
                                  scenarioFile: Option<string>, env: Option<string>)
    ensures Words(CommandText(path, Selectors(tags, scenario, scenarioFile, env)))
         == Some(["proef", "test"] + One(path) + Pair("--env", env) + Pair("--tags", tags)
                 + Pair("--scenario", scenario) + Pair("--scenario-file", scenarioFile))
  {
    var selectors := Selectors(tags, scenario, scenarioFile, env);
    FlagsPlain(tags, scenario, scenarioFile, env);
    CommandReads(path, selectors);
    WordsRead(CommandText(path, selectors), Arguments(path, selectors));
    ArgumentsSpelled(path, tags, scenario, scenarioFile, env);
  }
}
