/** `fixFile` of the fence fixer (tools/markdown/fix-fence-languages.js:84-208):
    one pass over the lines that gives every bare top-level code fence the
    language `detectLanguage` infers from its body, and leaves every other
    line as it is. */
module FenceFixer {
  import opened Text
  import opened FenceLanguage

  /** One rewritten opening line; `line` is 1-based. */
  datatype Fix = Fix(line: int, original: string, fixed: string, detectedLanguage: string, contentPreview: string)

  /** What `fixFile` returns, without the path it was given. */
  datatype Outcome = Outcome(fixes: seq<Fix>, modified: bool, newContent: string)

  /** The variables of `fixFile`'s loop. An entry of `fenceStack` is the
      length of the backtick run that opened an outer fence, which is all the
      loop ever reads of it. */
  datatype State = State(
    fenceStack: seq<nat>,
    fixing: bool,
    fixFenceStart: int,
    fixOpenIndent: string,
    fixOpenLine: string,
    fixOpenLen: nat,
    fenceContent: seq<string>,
    newLines: seq<string>,
    fixes: seq<Fix>,
    modified: bool)

  const Initial := State([], false, -1, "", "", 0, [], [], [], false)

  // ---------------------------------------------------------------------
  // The two line patterns.

  /** The end of the run of backticks that starts at `i`. */
  function TickEnd(s: string, i: nat): (k: nat)
    requires i <= |s|
    ensures i <= k <= |s|
    decreases |s| - i
  {
    if i < |s| && s[i] == '`' then TickEnd(s, i + 1) else i
  }

  /** `TickEnd` is the whole run: backticks up to it, then none. */
  lemma {:induction false} TickEndIsRun(s: string, i: nat)
    requires i <= |s|
    ensures forall j :: i <= j < TickEnd(s, i) ==> s[j] == '`'
    ensures TickEnd(s, i) < |s| ==> s[TickEnd(s, i)] != '`'
    decreases |s| - i
  {
    if i < |s| && s[i] == '`' {
      TickEndIsRun(s, i + 1);
    }
  }

  /** A run of backticks from `i` to `k` that nothing extends ends at `k`. */
  lemma {:induction false} TickEndIs(s: string, i: nat, k: nat)
    requires i <= k <= |s| && (forall j :: i <= j < k ==> s[j] == '`') && (k < |s| ==> s[k] != '`')
    ensures TickEnd(s, i) == k
    decreases k - i
  {
    if i < k {
      TickEndIs(s, i + 1, k);
    }
  }

  /** `/^(\s*)(`+)(\s*)$/`: backticks with white space around them only; the
      length of the run. The run is the longest one, since a backtick is not
      white space. */
  function CloseRun(line: string): (r: Option<nat>)
    ensures r.Some? ==> r.value >= 1
  {
    var i := SpaceEnd(line, 0);
    var j := TickEnd(line, i);
    if j > i && SpaceEnd(line, j) == |line| then Some(j - i) else None
  }

  /** `CloseRun` finds a run exactly when the line is white space, `n >= 1`
      backticks and white space, and then the run is `n`. */
  lemma CloseRunMatches(line: string, a: nat, n: nat)
    requires 1 <= n && a + n <= |line|
    ensures (AllSpace(line[..a]) && (forall j :: a <= j < a + n ==> line[j] == '`') && AllSpace(line[a + n..]))
            ==> CloseRun(line) == Some(n)
    ensures CloseRun(line).Some? ==>
      (exists b :: 0 <= b && b + CloseRun(line).value <= |line| && AllSpace(line[..b])
         && (forall j :: b <= j < b + CloseRun(line).value ==> line[j] == '`')
         && AllSpace(line[b + CloseRun(line).value..]))
  {
    if AllSpace(line[..a]) && (forall j :: a <= j < a + n ==> line[j] == '`') && AllSpace(line[a + n..]) {
      assert forall j :: 0 <= j < a ==> IsSpace(line[j]) by {
        forall j | 0 <= j < a ensures IsSpace(line[j]) { assert line[..a][j] == line[j]; }
      }
      SpaceEndIs(line, 0, a);
      if a + n < |line| {
        assert line[a + n..][0] == line[a + n];
      }
      TickEndIs(line, a, a + n);
      forall j | a + n <= j < |line| ensures IsSpace(line[j]) { assert line[a + n..][j - a - n] == line[j]; }
      SpaceEndIs(line, a + n, |line|);
    }
    if CloseRun(line).Some? {
      var i := SpaceEnd(line, 0);
      var j := TickEnd(line, i);
      SpaceEndIsRun(line, 0);
      TickEndIsRun(line, i);
      SpaceEndIsRun(line, j);
      assert AllSpace(line[..i]);
      assert AllSpace(line[j..]);
    }
  }

  /** In fixing mode, `line` ends a fence opened with `n` backticks. */
  predicate Closes(line: string, n: nat) {
    var r := CloseRun(line);
    r.Some? && r.value >= n
  }

  /** The groups of `/^(\s*)(`{3,})(.*)$/`: indent, length of the run, rest. */
  datatype FenceMatch = FenceMatch(indent: string, ticks: nat, rest: string)

  /** `line.match(/^(\s*)(`{3,})(.*)$/)`. Without the multi-line flag `$` is
      the end of the line, and `.` matches no line terminator, so the rest
      must hold none (a carriage return that is not followed by a line feed
      stays in a line). */
  function FenceLineOf(line: string): (m: Option<FenceMatch>)
    ensures m.Some? ==> m.value.ticks >= 3
  {
    var i := SpaceEnd(line, 0);
    var j := TickEnd(line, i);
    if j - i >= 3 && NoBreakFrom(line, j)
    then Some(FenceMatch(line[..i], j - i, line[j..]))
    else None
  }

  /** The groups of a fence line put back together: white space, a run of
      at least three backticks that is the longest one there, and a rest
      without line terminators; the indent is what `trimStart` removes. */
  lemma FenceLineParts(line: string)
    requires FenceLineOf(line).Some?
    ensures var m := FenceLineOf(line).value;
      var i := |m.indent|;
      i + m.ticks <= |line| && line == m.indent + line[i..i + m.ticks] + m.rest
      && AllSpace(m.indent) && (forall j :: i <= j < i + m.ticks ==> line[j] == '`')
      && (|m.rest| > 0 ==> m.rest[0] != '`')
      && (forall j :: 0 <= j < |m.rest| ==> !IsLineTerminator(m.rest[j]))
      && TrimStart(line) == line[i..]
  {
    var i := SpaceEnd(line, 0);
    var j := TickEnd(line, i);
    SpaceEndIsRun(line, 0);
    TickEndIsRun(line, i);
    NoBreakFromIsAll(line, j);
    TrimStartFrom(line, 0);
    assert line[0..] == line;
    assert line == line[..i] + line[i..j] + line[j..];
  }

  /** Conversely, white space, `n >= 3` backticks and a rest without line
      terminators make a fence line; its groups are those parts when the
      rest does not start with one more backtick, and it is a bare opener
      when the rest is white space. */
  lemma FenceLineMatches(line: string, a: nat, n: nat)
    requires 3 <= n && a + n <= |line|
    requires AllSpace(line[..a]) && (forall j :: a <= j < a + n ==> line[j] == '`')
    requires forall j :: a + n <= j < |line| ==> !IsLineTerminator(line[j])
    ensures FenceLineOf(line).Some?
    ensures a + n == |line| || line[a + n] != '`' ==> FenceLineOf(line) == Some(FenceMatch(line[..a], n, line[a + n..]))
    ensures (forall j :: a + n <= j < |line| ==> IsSpace(line[j])) ==> BareOpener(line)
  {
    forall j | 0 <= j < a ensures IsSpace(line[j]) { assert line[..a][j] == line[j]; }
    SpaceEndIs(line, 0, a);
    var k := TickEnd(line, a);
    TickEndIsRun(line, a);
    assert k >= a + n;
    NoBreakFromIsAll(line, k);
    if a + n == |line| || line[a + n] != '`' {
      TickEndIs(line, a, a + n);
    }
    if forall j :: a + n <= j < |line| ==> IsSpace(line[j]) {
      assert AllSpace(line[k..]) by {
        forall j | 0 <= j < |line| - k ensures IsSpace(line[k..][j]) { assert line[k..][j] == line[k + j]; }
      }
    }
  }

  /** A fence line with nothing but white space after its backticks: the
      trimmed rest is empty. */
  predicate BareOpener(line: string) {
    var m := FenceLineOf(line);
    m.Some? && AllSpace(m.value.rest)
  }

  /** The first two body lines, joined, cut to 60 characters, then `...`. */
  function Preview(body: seq<string>): (p: string)
    ensures |p| <= 63
  {
    var joined := Join(if |body| <= 2 then body else body[..2], "\n");
    (if |joined| <= 60 then joined else joined[..60]) + "..."
  }

  /** The preview ends in `...` after at most 60 characters that start the
      first two body lines joined, and after all of them when they fit. */
  lemma PreviewShape(body: seq<string>)
    ensures var p := Preview(body);
      var joined := Join(if |body| <= 2 then body else body[..2], "\n");
      3 <= |p| && p[|p| - 3..] == "..." && StartsWith(joined, p[..|p| - 3])
      && (|joined| <= 60 <==> p[..|p| - 3] == joined)
      && (|joined| > 60 ==> p == joined[..60] + "...")
  {
  }

  // ---------------------------------------------------------------------
  // The loop, one line at a time.

  /** One turn of the loop, on line `i`. `detect` names the language of a
      body joined with line feeds: `detectLanguage` in `fixFile`. */
  function Step(s: State, i: nat, line: string, detect: string -> string): State {
    if s.fixing then
      if Closes(line, s.fixOpenLen) then
        var language := detect(Join(s.fenceContent, "\n"));
        var fixed := s.fixOpenIndent + "```" + language;
        s.(newLines := s.newLines + [fixed] + s.fenceContent + [line],
           fixes := s.fixes + [Fix(s.fixFenceStart + 1, s.fixOpenLine, fixed, language, Preview(s.fenceContent))],
           modified := true, fixing := false, fixFenceStart := -1, fixOpenIndent := "",
           fixOpenLine := "", fixOpenLen := 0, fenceContent := [])
      else
        s.(fenceContent := s.fenceContent + [line])
    else
      var m := FenceLineOf(line);
      if m.None? then s.(newLines := s.newLines + [line])
      else
        var depth := |s.fenceStack|;
        if depth > 0 && BareOpener(line) && m.value.ticks >= s.fenceStack[depth - 1] then
          s.(fenceStack := s.fenceStack[..depth - 1], newLines := s.newLines + [line])
        else if depth > 0 then
          s.(fenceStack := s.fenceStack + [m.value.ticks], newLines := s.newLines + [line])
        else if BareOpener(line) then
          s.(fixing := true, fixFenceStart := i, fixOpenIndent := m.value.indent, fixOpenLine := line,
             fixOpenLen := m.value.ticks, fenceContent := [])
        else
          s.(fenceStack := [m.value.ticks], newLines := s.newLines + [line])
  }

  /** The state after the first `k` lines. */
  function Run(lines: seq<string>, k: nat, detect: string -> string): State
    requires k <= |lines|
  {
    if k == 0 then Initial else Step(Run(lines, k - 1, detect), k - 1, lines[k - 1], detect)
  }

  /** `detectLanguage` with `JSON.parse` standing for `isJson`. */
  function Detector(isJson: string -> bool): string -> string {
    c => DetectLanguage(c, isJson)
  }

  /** The loop ended inside a target fence that never closed. */
  predicate Aborted(content: string, isJson: string -> bool) {
    var lines := SplitLines(content);
    Run(lines, |lines|, Detector(isJson)).fixing
  }

  /** The rewritten lines, joined. */
  function Body(content: string, isJson: string -> bool): string {
    var lines := SplitLines(content);
    Join(Run(lines, |lines|, Detector(isJson)).newLines, "\n")
  }

  /** What `fixFile` returns for a file's text. */
  function FixOutcome(content: string, isJson: string -> bool): Outcome {
    var lines := SplitLines(content);
    var s := Run(lines, |lines|, Detector(isJson));
    if s.fixing then Outcome([], false, content)
    else Outcome(s.fixes, s.modified, Body(content, isJson) + (if EndsWith(content, "\n") then "\n" else ""))
  }

  /** One turn of `fixFile`'s loop (fix-fence-languages.js:105-189): the
      loop's variables before and after line `i`. */
  method Turn(fenceStack: seq<nat>, fixing: bool, fixFenceStart: int, fixOpenIndent: string,
              fixOpenLine: string, fixOpenLen: nat, fenceContent: seq<string>, newLines: seq<string>,
              fixes: seq<Fix>, modified: bool, i: nat, line: string, detect: string -> string)
    returns (fenceStack': seq<nat>, fixing': bool, fixFenceStart': int, fixOpenIndent': string,
             fixOpenLine': string, fixOpenLen': nat, fenceContent': seq<string>, newLines': seq<string>,
             fixes': seq<Fix>, modified': bool)
    ensures State(fenceStack', fixing', fixFenceStart', fixOpenIndent', fixOpenLine', fixOpenLen',
                  fenceContent', newLines', fixes', modified')
         == Step(State(fenceStack, fixing, fixFenceStart, fixOpenIndent, fixOpenLine, fixOpenLen,
                       fenceContent, newLines, fixes, modified), i, line, detect)
  {
    fenceStack', fixing', fixFenceStart', fixOpenIndent', fixOpenLine', fixOpenLen', fenceContent', newLines', fixes', modified' :=
      fenceStack, fixing, fixFenceStart, fixOpenIndent, fixOpenLine, fixOpenLen, fenceContent, newLines, fixes, modified;
    if fixing {
      var closeMatch := CloseRun(line);
      if closeMatch.Some? {
        var closeTicks := closeMatch.value;
        if closeTicks >= fixOpenLen {
          // the target fence closes: emit the rewritten opener, the body and this line
          var language := detect(Join(fenceContent, "\n"));
          var fixedOpenLine := fixOpenIndent + "```" + language;
          newLines' := newLines + [fixedOpenLine] + fenceContent + [line];
          fixes' := fixes + [Fix(fixFenceStart + 1, fixOpenLine, fixedOpenLine, language, Preview(fenceContent))];
          modified' := true;
          fixing' := false;
          fixFenceStart' := -1;
          fixOpenIndent' := "";
          fixOpenLine' := "";
          fixOpenLen' := 0;
          fenceContent' := [];
          return;
        }
      }
      // not a closing line: part of the body
      fenceContent' := fenceContent + [line];
      return;
    }
    var fenceLineMatch := FenceLineOf(line);
    if fenceLineMatch.Some? {
      var indent := fenceLineMatch.value.indent;
      var ticksLen := fenceLineMatch.value.ticks;
      var restTrim := Trim(fenceLineMatch.value.rest);
      if |fenceStack| > 0 {
        var top := fenceStack[|fenceStack| - 1];
        if restTrim == [] && ticksLen >= top {
          // closes the innermost outer fence
          fenceStack' := fenceStack[..|fenceStack| - 1];
          newLines' := newLines + [line];
          return;
        }
      }
      if |fenceStack| > 0 {
        // a fence nested in an outer one
        fenceStack' := fenceStack + [ticksLen];
        newLines' := newLines + [line];
        return;
      }
      if ticksLen >= 3 && restTrim == [] {
        // a bare top-level opener: fixing mode; the line is held back
        fixing' := true;
        fixFenceStart' := i;
        fixOpenIndent' := indent;
        fixOpenLine' := line;
        fixOpenLen' := ticksLen;
        fenceContent' := [];
        return;
      }
      // any other top-level fence opens an outer fence
      fenceStack' := fenceStack + [ticksLen];
      newLines' := newLines + [line];
      return;
    }
    newLines' := newLines + [line];
  }

  /** The loop of `fixFile` (fix-fence-languages.js:92-190) over all the lines. */
  method Scan(lines: seq<string>, detect: string -> string)
    returns (fenceStack: seq<nat>, fixing: bool, fixFenceStart: int, fixOpenIndent: string,
             fixOpenLine: string, fixOpenLen: nat, fenceContent: seq<string>, newLines: seq<string>,
             fixes: seq<Fix>, modified: bool)
    ensures State(fenceStack, fixing, fixFenceStart, fixOpenIndent, fixOpenLine, fixOpenLen,
                  fenceContent, newLines, fixes, modified) == Run(lines, |lines|, detect)
  {
    fixes := [];
    modified := false;
    fenceStack := [];
    fixing := false;
    fixFenceStart := -1;
    fixOpenIndent := "";
    fixOpenLine := "";
    fixOpenLen := 0;
    fenceContent := [];
    newLines := [];
    for i := 0 to |lines|
      invariant State(fenceStack, fixing, fixFenceStart, fixOpenIndent, fixOpenLine, fixOpenLen,
                      fenceContent, newLines, fixes, modified) == Run(lines, i, detect)
    {
      fenceStack, fixing, fixFenceStart, fixOpenIndent, fixOpenLine, fixOpenLen, fenceContent, newLines, fixes, modified :=
        Turn(fenceStack, fixing, fixFenceStart, fixOpenIndent, fixOpenLine, fixOpenLen, fenceContent, newLines,
             fixes, modified, i, lines[i], detect);
    }
  }

  /** `fixFile` on the text of a file. */
  method FixFile(content: string, isJson: string -> bool) returns (result: Outcome)
    ensures result == FixOutcome(content, isJson)
  {
    var lines := SplitLines(content);
    var fenceStack, fixing, fixFenceStart, fixOpenIndent, fixOpenLine, fixOpenLen, fenceContent, newLines, fixes, modified :=
      Scan(lines, Detector(isJson));
    if fixing {
      // the target fence never closed: nothing changes
      return Outcome([], false, content);
    }
    result := Outcome(fixes, modified, Join(newLines, "\n") + (if EndsWith(content, "\n") then "\n" else ""));
  }
}
