/** `detectLanguage` of the fence fixer (tools/markdown/fix-fence-languages.js):
    an ordered chain of tests on the trimmed body of a code fence, where the
    first test that matches names the language. */
module FenceLanguage {
  import opened Text

  const PlainText := "text"
  const Yaml := "yaml"
  const Json := "json"
  const Bash := "bash"
  const JavaScript := "javascript"
  const Xml := "xml"
  const Markdown := "markdown"

  /** Every tag `detectLanguage` can return. */
  const Languages: seq<string> := [PlainText, Yaml, Json, Bash, JavaScript, Xml, Markdown]

  // ---------------------------------------------------------------------
  // The tests, each on text that is already trimmed.

  predicate IsKeyStart(c: char) { IsAsciiLetter(c) || c == '_' }

  predicate IsKeyChar(c: char) { IsAsciiLetter(c) || IsDigit(c) || c == '_' || c == '-' }

  /** The length of the run of key characters that `s` starts with. */
  function KeyRun(s: string): (n: nat)
    ensures n <= |s|
    ensures forall i :: 0 <= i < n ==> IsKeyChar(s[i])
    ensures n < |s| ==> !IsKeyChar(s[n])
  {
    if s != [] && IsKeyChar(s[0]) then 1 + KeyRun(s[1..]) else 0
  }

  /** `^[a-zA-Z_][a-zA-Z0-9_-]*:\s*`: a key and a colon. Since `:` is not a
      key character, the key is the longest run, and `\s*` always matches. */
  predicate YamlKey(t: string) {
    t != [] && IsKeyStart(t[0]) && 1 + KeyRun(t[1..]) < |t| && t[1 + KeyRun(t[1..])] == ':'
  }

  /** `\s*$` without the multi-line flag's help: white space up to the end of
      the text or up to a line terminator. */
  predicate SpaceToLineEnd(s: string) {
    s == [] || IsLineTerminator(s[0]) || (IsSpace(s[0]) && SpaceToLineEnd(s[1..]))
  }

  /** Where `^` matches in multi-line mode. */
  predicate LineStartAt(t: string, p: nat) {
    p == 0 || (0 < p <= |t| && IsLineTerminator(t[p - 1]))
  }

  predicate DashLineAt(t: string, p: nat) {
    LineStartAt(t, p) && p + 3 <= |t| && t[p..p + 3] == "---" && SpaceToLineEnd(t[p + 3..])
  }

  /** `/^---\s*$/m`: some line is `---` and white space. */
  predicate DashLine(t: string) {
    exists p :: 0 <= p <= |t| && DashLineAt(t, p)
  }

  predicate LooksLikeYaml(t: string) {
    YamlKey(t) || DashLine(t)
  }

  /** Starts with `{` and ends with `}`, or starts with `[` and ends with `]`. */
  predicate Bracketed(t: string) {
    (StartsWith(t, "{") && EndsWith(t, "}")) || (StartsWith(t, "[") && EndsWith(t, "]"))
  }

  /** One of `words`, then a white-space character. */
  predicate LeadingWord(t: string, words: seq<string>) {
    words != []
    && ((|words[0]| < |t| && t[..|words[0]|] == words[0] && IsSpace(t[|words[0]|]))
        || LeadingWord(t, words[1..]))
  }

  const ShellWords: seq<string> :=
    ["npm", "yarn", "pnpm", "git", "node", "npx", "cd", "mkdir", "rm", "cp", "mv",
     "ls", "cat", "echo", "export", "source", "$"]

  /** A command word, a leading `$`, or a `#!/bin/sh` or `#!/bin/bash` line. */
  predicate LooksLikeShell(t: string) {
    LeadingWord(t, ShellWords) || StartsWith(t, "$")
    || StartsWith(t, "#!/bin/bash") || StartsWith(t, "#!/bin/sh")
  }

  const ScriptWords: seq<string> :=
    ["import", "export", "const", "let", "var", "function", "class", "async", "await"]

  /** A declaration keyword, or a line or block comment opener. */
  predicate LooksLikeScript(t: string) {
    LeadingWord(t, ScriptWords) || StartsWith(t, "//") || StartsWith(t, "/*")
  }

  /** `/^<[a-zA-Z][^>]*>/`: `[^>]` also matches line terminators, so this is a
      tag start and any later `>`. */
  predicate LooksLikeTag(t: string) {
    |t| >= 2 && t[0] == '<' && IsAsciiLetter(t[1]) && '>' in t[2..]
  }

  /** The length of the run of `#` that `s` starts with. */
  function HashRun(s: string): (n: nat)
    ensures n <= |s|
  {
    if s != [] && s[0] == '#' then 1 + HashRun(s[1..]) else 0
  }

  /** `/^#{1,6}\s/` */
  predicate Heading(t: string) {
    var n := HashRun(t);
    1 <= n <= 6 && n < |t| && IsSpace(t[n])
  }

  /** The text before the first line terminator: what `.` can match. */
  function FirstLine(t: string): (l: string)
    ensures StartsWith(t, l)
    ensures forall i :: 0 <= i < |l| ==> !IsLineTerminator(l[i])
  {
    if t == [] || IsLineTerminator(t[0]) then [] else [t[0]] + FirstLine(t[1..])
  }

  /** `/^\[.*\]\(.*\)/`: on the first line, `[`, then `](` somewhere, then a
      later `)`. */
  predicate LinkLine(t: string) {
    var l := FirstLine(t);
    l != [] && l[0] == '['
    && exists a :: 1 <= a && a + 2 <= |l| && l[a] == ']' && l[a + 1] == '(' && ')' in l[a + 2..]
  }

  predicate LooksLikeMarkdown(t: string) {
    Heading(t) || LinkLine(t)
  }

  predicate IsDiagramChar(c: char) {
    var n := c as int;
    (0x2190 <= n <= 0x2193)
    || n == 0x250C || n == 0x2510 || n == 0x2514 || n == 0x2518 || n == 0x251C
    || n == 0x2524 || n == 0x252C || n == 0x2534 || n == 0x253C || n == 0x2500 || n == 0x2502
  }

  /** Arrows `→↓←↑` or box-drawing characters `┌┐└┘├┤┬┴┼─│`. */
  predicate LooksLikeDiagram(t: string) {
    exists i :: 0 <= i < |t| && IsDiagramChar(t[i])
  }

  // ---------------------------------------------------------------------
  // The chain.

  /** `detectLanguage(content)`. `isJson` stands for `JSON.parse` succeeding on
      its argument. The tests run in order, and the first that matches wins:
      YAML beats everything, a bracketed text that parses is JSON, shell comes
      before JavaScript, and whatever matches nothing is plain text. */
  function DetectLanguage(content: string, isJson: string -> bool): (lang: string)
    ensures lang in Languages && lang != []
    ensures AllSpace(content) ==> lang == PlainText
    ensures var t := Trim(content);
      (lang == Yaml <==> t != [] && LooksLikeYaml(t))
      && (lang == Json <==> t != [] && !LooksLikeYaml(t) && Bracketed(t) && isJson(t))
      && (lang == Bash <==> t != [] && !LooksLikeYaml(t) && !(Bracketed(t) && isJson(t)) && LooksLikeShell(t))
      && (lang == JavaScript <==> t != [] && !LooksLikeYaml(t) && !(Bracketed(t) && isJson(t))
                                  && !LooksLikeShell(t) && LooksLikeScript(t))
  {
    Chain(Trim(content), isJson)
  }

  /** The tests of `detectLanguage`, in order, on the trimmed text `t`. */
  function Chain(t: string, isJson: string -> bool): string {
    if t == [] then PlainText
    else if LooksLikeYaml(t) then Yaml
    else if Bracketed(t) && isJson(t) then Json
    else if LooksLikeShell(t) then Bash
    else if LooksLikeScript(t) then JavaScript
    else if LooksLikeTag(t) then Xml
    else if LooksLikeMarkdown(t) then Markdown
    else if LooksLikeDiagram(t) then PlainText
    else PlainText
  }

  /** The tag depends on the trimmed body only. */
  lemma DetectLanguageOfTrimmed(content: string, isJson: string -> bool)
    ensures DetectLanguage(Trim(content), isJson) == DetectLanguage(content, isJson)
  {
    TrimIdempotent(content);
    assert Chain(Trim(Trim(content)), isJson) == Chain(Trim(content), isJson);
  }

  lemma {:induction false} KeyRunIs(s: string, n: nat)
    requires n <= |s| && (forall i :: 0 <= i < n ==> IsKeyChar(s[i]))
    requires n < |s| ==> !IsKeyChar(s[n])
    ensures KeyRun(s) == n
  {
    if n > 0 {
      KeyRunIs(s[1..], n - 1);
    }
  }

  /** A one-line text that does not start with `---` has no `---` line. */
  lemma {:induction false} NoDashLine(t: string)
    requires forall i :: 0 <= i < |t| ==> !IsLineTerminator(t[i])
    requires !StartsWith(t, "---")
    ensures !DashLine(t)
  {
    forall p | 0 <= p <= |t|
      ensures !DashLineAt(t, p)
    {
      if p > 0 {
        assert !IsLineTerminator(t[p - 1]);
      } else if 3 <= |t| {
        assert t[0..3] == t[..3];
      }
    }
  }

  lemma {:induction false} LeadingWordAt(t: string, words: seq<string>, k: nat)
    requires k < |words| && |words[k]| < |t| && t[..|words[k]|] == words[k] && IsSpace(t[|words[k]|])
    ensures LeadingWord(t, words)
  {
    if k > 0 {
      LeadingWordAt(t, words[1..], k - 1);
    }
  }

  /** `export` is both a command word and a keyword; shell wins, as it does
      for `export X=1`. */
  lemma ExportIsShell(content: string, isJson: string -> bool)
    requires var t := Trim(content); |t| >= 7 && t[..7] == "export " && !DashLine(t)
    ensures DetectLanguage(content, isJson) == Bash
  {
    var t := Trim(content);
    KeyRunIs(t[1..], 5);
    assert !LooksLikeYaml(t);
    assert !Bracketed(t);
    LeadingWordAt(t, ShellWords, 14);
  }

  /** A key and a colon is YAML. */
  lemma KeyIsYaml(isJson: string -> bool)
    ensures DetectLanguage("key: value", isJson) == Yaml
  {
    var t := "key: value";
    TrimOfUntrimmable(t);
    KeyRunIs(t[1..], 2);
  }

  /** An object that parses is JSON, unless a `---` line makes it YAML: a key
      cannot start with a brace. */
  lemma ObjectIsJson(content: string, isJson: string -> bool)
    requires var t := Trim(content); t != [] && t[0] == '{' && t[|t| - 1] == '}' && isJson(t) && !DashLine(t)
    ensures DetectLanguage(content, isJson) == Json
  {
    var t := Trim(content);
    assert StartsWith(t, "{") && EndsWith(t, "}");
  }
}
