/** What `fixFile` (tools/markdown/fix-fence-languages.js:84-208) guarantees:
    the lines keep their number and order, the only lines that change are the
    openers of bare top-level fences, and each of those becomes its indent,
    three backticks and the language of its body. */
module FenceFixerFacts {
  import opened Text
  import opened FenceLanguage
  import opened FenceFixer

  // ---------------------------------------------------------------------
  // One line at a time.

  /** The fix recorded when the target fence of `s` closes. */
  function FixOf(s: State, detect: string -> string): (f: Fix)
    ensures f.line == s.fixFenceStart + 1 && f.original == s.fixOpenLine
    ensures f.detectedLanguage == detect(Join(s.fenceContent, "\n"))
    ensures f.fixed == s.fixOpenIndent + "```" + f.detectedLanguage
    ensures f.contentPreview == Preview(s.fenceContent)
  {
    var language := detect(Join(s.fenceContent, "\n"));
    Fix(s.fixFenceStart + 1, s.fixOpenLine, s.fixOpenIndent + "```" + language, language, Preview(s.fenceContent))
  }

  /** Inside a target fence a line either closes it, when it is backticks
      alone and at least as many as the opener had, or joins the body;
      nothing is emitted while the body grows. */
  lemma FixingLine(s: State, i: nat, line: string, detect: string -> string)
    requires s.fixing
    ensures var s' := Step(s, i, line, detect);
      (s'.fixing <==> !Closes(line, s.fixOpenLen))
      && (s'.fixing ==> s' == s.(fenceContent := s.fenceContent + [line]))
      && (!s'.fixing ==> s'.fixes == s.fixes + [FixOf(s, detect)] && s'.modified
                         && s'.newLines == s.newLines + [FixOf(s, detect).fixed] + s.fenceContent + [line]
                         && s'.fenceStack == s.fenceStack)
  {
  }

  /** A fence line with text after its backticks, such as an opener with a
      language, never closes a target fence: inside one it is body. */
  lemma TaggedLineNeverCloses(line: string, n: nat)
    requires FenceLineOf(line).Some? && Trim(FenceLineOf(line).value.rest) != []
    ensures !Closes(line, n)
  {
    var j := TickEnd(line, SpaceEnd(line, 0));
    assert FenceLineOf(line).value.rest == line[j..];
    SpaceEndIsRun(line, j);
  }

  /** Outside a target fence, a fence line met inside an outer fence is
      emitted unchanged; it closes the innermost outer fence when it is bare
      and its run is at least that fence's, and otherwise opens a nested one. */
  lemma NestedFenceLine(s: State, i: nat, line: string, detect: string -> string)
    requires !s.fixing && s.fenceStack != [] && FenceLineOf(line).Some?
    ensures var s' := Step(s, i, line, detect);
      var m := FenceLineOf(line).value;
      var top := s.fenceStack[|s.fenceStack| - 1];
      !s'.fixing && s'.newLines == s.newLines + [line] && s'.fixes == s.fixes && s'.modified == s.modified
      && s'.fenceStack == (if BareOpener(line) && m.ticks >= top then s.fenceStack[..|s.fenceStack| - 1]
                           else s.fenceStack + [m.ticks])
  {
  }

  /** At the top level only a bare fence line starts a target fence, and the
      line is held back; any other fence line opens an outer fence and is
      emitted unchanged. */
  lemma TopLevelFenceLine(s: State, i: nat, line: string, detect: string -> string)
    requires !s.fixing && s.fenceStack == [] && FenceLineOf(line).Some?
    ensures var s' := Step(s, i, line, detect);
      var m := FenceLineOf(line).value;
      (s'.fixing <==> BareOpener(line))
      && (s'.fixing ==> s'.newLines == s.newLines && s'.fixFenceStart == i && s'.fixOpenLine == line
                        && s'.fixOpenIndent == m.indent && s'.fixOpenLen == m.ticks && s'.fenceContent == [])
      && (!s'.fixing ==> s'.newLines == s.newLines + [line] && s'.fenceStack == [m.ticks])
      && s'.fixes == s.fixes
  {
  }

  // ---------------------------------------------------------------------
  // Nesting: the part of the loop's state that decides what a line means.

  /** The fence stack, whether a target fence is being read, and the run
      that opened it. */
  datatype Nesting = Nesting(fenceStack: seq<nat>, fixing: bool, fixOpenLen: nat)

  function NestingOf(s: State): Nesting {
    Nesting(s.fenceStack, s.fixing, s.fixOpenLen)
  }

  /** How one line moves the nesting: the branches of the loop without
      their output. */
  function NestingStep(m: Nesting, line: string): Nesting {
    if m.fixing then
      if Closes(line, m.fixOpenLen) then m.(fixing := false, fixOpenLen := 0) else m
    else
      var f := FenceLineOf(line);
      if f.None? then m
      else
        var depth := |m.fenceStack|;
        if depth > 0 && BareOpener(line) && f.value.ticks >= m.fenceStack[depth - 1] then
          m.(fenceStack := m.fenceStack[..depth - 1])
        else if depth > 0 then m.(fenceStack := m.fenceStack + [f.value.ticks])
        else if BareOpener(line) then m.(fixing := true, fixOpenLen := f.value.ticks)
        else m.(fenceStack := [f.value.ticks])
  }

  /** The nesting after the first `k` lines. */
  function NestingAt(lines: seq<string>, k: nat): Nesting
    requires k <= |lines|
  {
    if k == 0 then Nesting([], false, 0) else NestingStep(NestingAt(lines, k - 1), lines[k - 1])
  }

  /** Inside a target fence a turn moves the nesting as `NestingStep` says. */
  lemma FixingNesting(s: State, i: nat, line: string, detect: string -> string)
    requires s.fixing
    ensures NestingOf(Step(s, i, line, detect)) == NestingStep(NestingOf(s), line)
  {
    if Closes(line, s.fixOpenLen) {
      assert NestingOf(Step(s, i, line, detect)) == Nesting(s.fenceStack, false, 0);
    }
  }

  /** Outside a target fence a turn moves the nesting as `NestingStep` says. */
  lemma ScanNesting(s: State, i: nat, line: string, detect: string -> string)
    requires !s.fixing
    ensures NestingOf(Step(s, i, line, detect)) == NestingStep(NestingOf(s), line)
  {
  }

  /** Before line `j` the loop is neither in a target fence nor in an outer one. */
  predicate TopLevel(lines: seq<string>, j: nat)
    requires j <= |lines|
  {
    var m := NestingAt(lines, j);
    !m.fixing && m.fenceStack == []
  }

  // ---------------------------------------------------------------------
  // The invariant of the loop.

  /** The first line at or after `from` that closes a fence of `n`
      backticks, or `|lines|` when there is none. */
  function FirstClose(lines: seq<string>, from: nat, n: nat): (c: nat)
    requires from <= |lines|
    ensures from <= c <= |lines|
    ensures c < |lines| ==> Closes(lines[c], n)
    ensures forall q {:trigger Closes(lines[q], n)} :: from <= q < c ==> !Closes(lines[q], n)
    decreases |lines| - from
  {
    if from == |lines| then from
    else if Closes(lines[from], n) then from
    else FirstClose(lines, from + 1, n)
  }

  /** A fix is right for `lines`: its line is a bare opener at the top
      level, the fence it opens closes at the first line that can close it,
      and the fix's fields are made of that opener and the body in between. */
  predicate FixOk(lines: seq<string>, f: Fix, detect: string -> string) {
    var o := f.line - 1;
    0 <= o < |lines| && BareOpener(lines[o]) && TopLevel(lines, o) && f.original == lines[o]
    && (var m := FenceLineOf(lines[o]).value;
        var c := FirstClose(lines, o + 1, m.ticks);
        c < |lines|
        && f.detectedLanguage == detect(Join(Slice(lines, o + 1, c), "\n"))
        && f.fixed == m.indent + "```" + f.detectedLanguage
        && f.contentPreview == Preview(Slice(lines, o + 1, c)))
  }

  /** Fix line numbers strictly increase. */
  predicate Increasing(fixes: seq<Fix>) {
    forall a, b :: 0 <= a < b < |fixes| ==> fixes[a].line < fixes[b].line
  }

  /** No fix is on the 0-based line `j`. */
  predicate NotFixed(fixes: seq<Fix>, j: int) {
    forall a :: 0 <= a < |fixes| ==> fixes[a].line != j + 1
  }

  /** Each fix's line of `newLines` holds the fixed opener. */
  predicate Marked(newLines: seq<string>, fixes: seq<Fix>) {
    forall a :: 0 <= a < |fixes| ==> 1 <= fixes[a].line <= |newLines| && newLines[fixes[a].line - 1] == fixes[a].fixed
  }

  /** Every other line of `newLines` is the line of `lines` at its place. */
  predicate Kept(lines: seq<string>, newLines: seq<string>, fixes: seq<Fix>) {
    forall j {:trigger NotFixed(fixes, j)} :: 0 <= j < |newLines| && j < |lines| && NotFixed(fixes, j) ==> newLines[j] == lines[j]
  }

  /** `newLines` is the start of `lines` with the fixed lines rewritten. */
  predicate Rewritten(lines: seq<string>, newLines: seq<string>, fixes: seq<Fix>) {
    |newLines| <= |lines| && Marked(newLines, fixes) && Kept(lines, newLines, fixes)
  }

  /** Lines added after the end keep the marks. */
  lemma MarkedAppend(newLines: seq<string>, more: seq<string>, fixes: seq<Fix>)
    requires Marked(newLines, fixes)
    ensures Marked(newLines + more, fixes)
  {
    forall a | 0 <= a < |fixes|
      ensures (newLines + more)[fixes[a].line - 1] == fixes[a].fixed
    {
      assert (newLines + more)[fixes[a].line - 1] == newLines[fixes[a].line - 1];
    }
  }

  /** The next line of `lines`, added unchanged, keeps `Kept`. */
  lemma KeptSnoc(lines: seq<string>, newLines: seq<string>, fixes: seq<Fix>)
    requires |newLines| < |lines| && Kept(lines, newLines, fixes)
    ensures Kept(lines, newLines + [lines[|newLines|]], fixes)
  {
    forall j | 0 <= j < |newLines| + 1 && NotFixed(fixes, j)
      ensures (newLines + [lines[|newLines|]])[j] == lines[j]
    {
      if j < |newLines| { assert (newLines + [lines[|newLines|]])[j] == newLines[j]; }
    }
  }

  /** A new fix on the line after the others, with its fixed opener there. */
  lemma MarkedClose(newLines: seq<string>, more: seq<string>, fixes: seq<Fix>, f: Fix)
    requires Marked(newLines, fixes) && f.line == |newLines| + 1
    ensures Marked(newLines + [f.fixed] + more, fixes + [f])
  {
    MarkedAppend(newLines, [f.fixed] + more, fixes);
    assert newLines + [f.fixed] + more == newLines + ([f.fixed] + more);
    forall a | 0 <= a < |fixes + [f]|
      ensures 1 <= (fixes + [f])[a].line <= |newLines + [f.fixed] + more|
              && (newLines + [f.fixed] + more)[(fixes + [f])[a].line - 1] == (fixes + [f])[a].fixed
    {
      if a < |fixes| { assert (fixes + [f])[a] == fixes[a]; }
    }
  }

  /** The body and the closing line of a target fence opened at line `o`,
      added behind the fixed opener, keep `Kept`. */
  lemma {:induction false} KeptClose(lines: seq<string>, newLines: seq<string>, fixes: seq<Fix>, f: Fix, k: nat)
    requires |newLines| < k - 1 && k <= |lines| && Kept(lines, newLines, fixes) && f.line == |newLines| + 1
    ensures Kept(lines, newLines + [f.fixed] + Slice(lines, |newLines| + 1, k - 1) + [lines[k - 1]], fixes + [f])
  {
    var o := |newLines|;
    var t := newLines + [f.fixed] + Slice(lines, o + 1, k - 1) + [lines[k - 1]];
    forall j | 0 <= j < |t| && j < |lines| && NotFixed(fixes + [f], j)
      ensures t[j] == lines[j]
    {
      assert (fixes + [f])[|fixes|] == f;
      if j < o {
        assert NotFixed(fixes, j) by {
          forall a | 0 <= a < |fixes| ensures fixes[a].line != j + 1 { assert (fixes + [f])[a] == fixes[a]; }
        }
        assert t[j] == newLines[j];
      } else if j < k - 1 {
        assert t[j] == Slice(lines, o + 1, k - 1)[j - o - 1];
        SliceAt(lines, o + 1, k - 1, j);
      }
    }
  }

  /** Fix lines stay increasing when the new fix comes after all others. */
  lemma IncreasingAppend(fixes: seq<Fix>, f: Fix)
    requires Increasing(fixes) && forall a :: 0 <= a < |fixes| ==> fixes[a].line < f.line
    ensures Increasing(fixes + [f])
  {
    forall a, b | 0 <= a < b < |fixes + [f]|
      ensures (fixes + [f])[a].line < (fixes + [f])[b].line
    {
      assert (fixes + [f])[a] == fixes[a];
      if b < |fixes| { assert (fixes + [f])[b] == fixes[b]; }
    }
  }

  /** In a target fence opened at line `fixFenceStart`, before line `k`:
      the opener is held back, its fields are recorded, and the body so far
      is the lines after it, none of which closes it. */
  predicate Holding(lines: seq<string>, k: nat, s: State)
    requires k <= |lines|
  {
    var o := s.fixFenceStart;
    0 <= o < k && |s.newLines| == o && s.fenceStack == []
    && BareOpener(lines[o])
    && s.fixOpenLine == lines[o]
    && s.fixOpenIndent == FenceLineOf(lines[o]).value.indent
    && s.fixOpenLen == FenceLineOf(lines[o]).value.ticks
    && s.fenceContent == Slice(lines, o + 1, k)
    && (forall q {:trigger Closes(lines[q], s.fixOpenLen)} :: o < q < k ==> !Closes(lines[q], s.fixOpenLen))
  }

  /** Where the lines of the first `k` have gone. */
  predicate Layout(lines: seq<string>, k: nat, s: State)
    requires k <= |lines|
  {
    (if s.fixing then Holding(lines, k, s) else |s.newLines| == k)
    && s.modified == (s.fixes != [])
    && Increasing(s.fixes)
    && Rewritten(lines, s.newLines, s.fixes)
  }

  /** Every fix so far is right, and a target fence being read was opened at
      the top level. */
  predicate FixesOk(lines: seq<string>, s: State, detect: string -> string) {
    (s.fixing ==> 0 <= s.fixFenceStart <= |lines| && TopLevel(lines, s.fixFenceStart))
    && AllFixesOk(lines, s.fixes, detect)
  }

  predicate AllFixesOk(lines: seq<string>, fixes: seq<Fix>, detect: string -> string) {
    forall a :: 0 <= a < |fixes| ==> FixOk(lines, fixes[a], detect)
  }

  lemma AllFixesOkAppend(lines: seq<string>, fixes: seq<Fix>, f: Fix, detect: string -> string)
    requires AllFixesOk(lines, fixes, detect) && FixOk(lines, f, detect)
    ensures AllFixesOk(lines, fixes + [f], detect)
  {
    forall a | 0 <= a < |fixes + [f]|
      ensures FixOk(lines, (fixes + [f])[a], detect)
    {
      if a < |fixes| { assert (fixes + [f])[a] == fixes[a]; }
    }
  }

  /** The invariant of `fixFile`'s loop after `k` lines. */
  predicate Inv(lines: seq<string>, k: nat, s: State, detect: string -> string)
    requires k <= |lines|
  {
    Layout(lines, k, s) && FixesOk(lines, s, detect) && NestingOf(s) == NestingAt(lines, k)
  }

  lemma FirstCloseIs(lines: seq<string>, from: nat, n: nat, c: nat)
    requires from <= c < |lines| && Closes(lines[c], n)
    requires forall q {:trigger Closes(lines[q], n)} :: from <= q < c ==> !Closes(lines[q], n)
    ensures FirstClose(lines, from, n) == c
  {
  }

  /** Outside a target fence the fixes stay as they are; the line is either
      emitted, or it is a bare opener at the top level and starts a target
      fence. */
  lemma ScanLine(s: State, i: nat, line: string, detect: string -> string)
    requires !s.fixing
    ensures var t := Step(s, i, line, detect);
      t.fixes == s.fixes && t.modified == s.modified
      && (t.fixing ==> s.fenceStack == [] && BareOpener(line) && t.fenceStack == []
                       && t.newLines == s.newLines && t.fixFenceStart == i && t.fixOpenLine == line
                       && t.fixOpenIndent == FenceLineOf(line).value.indent
                       && t.fixOpenLen == FenceLineOf(line).value.ticks && t.fenceContent == [])
      && (!t.fixing ==> t.newLines == s.newLines + [line])
  {
  }

  /** The target fence closes at line `k - 1` with the fix `f`: the opener
      goes back in as `f.fixed`, followed by the body and the closing line. */
  lemma {:induction false} CloseLayout(lines: seq<string>, k: nat, s: State, t: State, f: Fix)
    requires 0 < k <= |lines| && s.fixing && Layout(lines, k - 1, s)
    requires f.line == s.fixFenceStart + 1
    requires !t.fixing && t.modified && t.fixes == s.fixes + [f]
    requires t.newLines == s.newLines + [f.fixed] + s.fenceContent + [lines[k - 1]]
    ensures Layout(lines, k, t)
  {
    MarkedClose(s.newLines, s.fenceContent + [lines[k - 1]], s.fixes, f);
    assert s.newLines + [f.fixed] + (s.fenceContent + [lines[k - 1]]) == t.newLines;
    KeptClose(lines, s.newLines, s.fixes, f, k);
    IncreasingAppend(s.fixes, f);
  }

  /** The fix recorded when the target fence closes at line `k - 1` is right. */
  lemma {:induction false} FixOfOk(lines: seq<string>, k: nat, s: State, detect: string -> string)
    requires 0 < k <= |lines| && s.fixing && Holding(lines, k - 1, s) && TopLevel(lines, s.fixFenceStart)
    requires Closes(lines[k - 1], s.fixOpenLen)
    ensures FixOk(lines, FixOf(s, detect), detect)
  {
    var o := s.fixFenceStart;
    var f := FixOf(s, detect);
    FirstCloseIs(lines, o + 1, s.fixOpenLen, k - 1);
    FixOkIntro(lines, f, detect, o, k - 1);
  }

  /** The parts of `FixOk`, one at a time. */
  lemma FixOkIntro(lines: seq<string>, f: Fix, detect: string -> string, o: nat, c: nat)
    requires f.line == o + 1 && o < |lines| && BareOpener(lines[o]) && TopLevel(lines, o)
    requires f.original == lines[o]
    requires c == FirstClose(lines, o + 1, FenceLineOf(lines[o]).value.ticks) && c < |lines|
    requires f.detectedLanguage == detect(Join(Slice(lines, o + 1, c), "\n"))
    requires f.fixed == FenceLineOf(lines[o]).value.indent + "```" + f.detectedLanguage
    requires f.contentPreview == Preview(Slice(lines, o + 1, c))
    ensures FixOk(lines, f, detect)
  {
  }

  lemma {:induction false} CloseFixesOk(lines: seq<string>, k: nat, s: State, t: State, detect: string -> string)
    requires 0 < k <= |lines| && s.fixing && Layout(lines, k - 1, s) && FixesOk(lines, s, detect)
    requires Closes(lines[k - 1], s.fixOpenLen)
    requires !t.fixing && t.fixes == s.fixes + [FixOf(s, detect)]
    ensures FixesOk(lines, t, detect)
  {
    var f := FixOf(s, detect);
    FixOfOk(lines, k, s, detect);
    AllFixesOkAppend(lines, s.fixes, f, detect);
  }

  /** Line `k - 1` joins the body of the target fence. */
  lemma {:induction false} BufferLayout(lines: seq<string>, k: nat, s: State, t: State)
    requires 0 < k <= |lines| && s.fixing && Layout(lines, k - 1, s) && !Closes(lines[k - 1], s.fixOpenLen)
    requires t == s.(fenceContent := s.fenceContent + [lines[k - 1]])
    ensures Layout(lines, k, t)
  {
  }

  /** Line `k - 1` is outside a target fence: emitted unchanged, or the
      start of one. */
  lemma {:induction false} ScanLayout(lines: seq<string>, k: nat, s: State, t: State)
    requires 0 < k <= |lines| && !s.fixing && Layout(lines, k - 1, s)
    requires t.fixes == s.fixes && t.modified == s.modified
    requires t.fixing ==> BareOpener(lines[k - 1]) && t.fenceStack == []
                          && t.newLines == s.newLines && t.fixFenceStart == k - 1 && t.fixOpenLine == lines[k - 1]
                          && t.fixOpenIndent == FenceLineOf(lines[k - 1]).value.indent
                          && t.fixOpenLen == FenceLineOf(lines[k - 1]).value.ticks && t.fenceContent == []
    requires !t.fixing ==> t.newLines == s.newLines + [lines[k - 1]]
    ensures Layout(lines, k, t)
  {
    if !t.fixing {
      MarkedAppend(s.newLines, [lines[k - 1]], s.fixes);
      KeptSnoc(lines, s.newLines, s.fixes);
    }
  }

  /** A line outside a target fence keeps the invariant. */
  lemma {:induction false} ScanKeeps(lines: seq<string>, k: nat, s: State, t: State, detect: string -> string)
    requires 0 < k <= |lines| && !s.fixing && Inv(lines, k - 1, s, detect)
    requires t.fixes == s.fixes && t.modified == s.modified
    requires t.fixing ==> s.fenceStack == [] && BareOpener(lines[k - 1]) && t.fenceStack == []
                          && t.newLines == s.newLines && t.fixFenceStart == k - 1 && t.fixOpenLine == lines[k - 1]
                          && t.fixOpenIndent == FenceLineOf(lines[k - 1]).value.indent
                          && t.fixOpenLen == FenceLineOf(lines[k - 1]).value.ticks && t.fenceContent == []
    requires !t.fixing ==> t.newLines == s.newLines + [lines[k - 1]]
    requires NestingOf(t) == NestingStep(NestingOf(s), lines[k - 1])
    ensures Inv(lines, k, t, detect)
  {
    ScanLayout(lines, k, s, t);
    if t.fixing {
      assert TopLevel(lines, k - 1);
    }
  }

  /** The line that closes a target fence keeps the invariant. */
  lemma {:induction false} CloseKeeps(lines: seq<string>, k: nat, s: State, t: State, detect: string -> string)
    requires 0 < k <= |lines| && s.fixing && Inv(lines, k - 1, s, detect) && Closes(lines[k - 1], s.fixOpenLen)
    requires !t.fixing && t.modified && t.fixes == s.fixes + [FixOf(s, detect)]
    requires t.newLines == s.newLines + [FixOf(s, detect).fixed] + s.fenceContent + [lines[k - 1]]
    requires NestingOf(t) == NestingStep(NestingOf(s), lines[k - 1])
    ensures Inv(lines, k, t, detect)
  {
    CloseLayout(lines, k, s, t, FixOf(s, detect));
    CloseFixesOk(lines, k, s, t, detect);
  }

  /** A body line of a target fence keeps the invariant. */
  lemma {:induction false} BufferKeeps(lines: seq<string>, k: nat, s: State, t: State, detect: string -> string)
    requires 0 < k <= |lines| && s.fixing && Inv(lines, k - 1, s, detect) && !Closes(lines[k - 1], s.fixOpenLen)
    requires t == s.(fenceContent := s.fenceContent + [lines[k - 1]])
    ensures Inv(lines, k, t, detect)
  {
    BufferLayout(lines, k, s, t);
  }

  /** A turn of the loop keeps the invariant. */
  lemma {:induction false} StepKeeps(lines: seq<string>, k: nat, s: State, detect: string -> string)
    requires 0 < k <= |lines| && Inv(lines, k - 1, s, detect)
    ensures Inv(lines, k, Step(s, k - 1, lines[k - 1], detect), detect)
  {
    var t := Step(s, k - 1, lines[k - 1], detect);
    if !s.fixing {
      ScanNesting(s, k - 1, lines[k - 1], detect);
      ScanLine(s, k - 1, lines[k - 1], detect);
      ScanKeeps(lines, k, s, t, detect);
    } else {
      FixingNesting(s, k - 1, lines[k - 1], detect);
      FixingLine(s, k - 1, lines[k - 1], detect);
      if Closes(lines[k - 1], s.fixOpenLen) {
        CloseKeeps(lines, k, s, t, detect);
      } else {
        BufferKeeps(lines, k, s, t, detect);
      }
    }
  }

  /** The invariant holds after each of the first `k` lines. */
  predicate InvAt(lines: seq<string>, k: nat, detect: string -> string)
    requires k <= |lines|
  {
    Inv(lines, k, Run(lines, k, detect), detect) && (k > 0 ==> InvAt(lines, k - 1, detect))
  }

  lemma {:induction false} RunStepKeeps(lines: seq<string>, k: nat, detect: string -> string)
    requires 0 < k <= |lines| && InvAt(lines, k - 1, detect)
    ensures InvAt(lines, k, detect)
  {
    StepKeeps(lines, k, Run(lines, k - 1, detect), detect);
  }

  /** The invariant holds after every prefix of the lines. */
  lemma {:induction false} RunKeeps(lines: seq<string>, k: nat, detect: string -> string)
    requires k <= |lines|
    ensures InvAt(lines, k, detect)
  {
    if k > 0 {
      RunKeeps(lines, k - 1, detect);
      RunStepKeeps(lines, k, detect);
    }
  }

  /** Every bare opener at the top level among the first `k` lines has its
      fix, or is the opener of the target fence being read. */
  predicate Complete(lines: seq<string>, k: nat, s: State)
    requires k <= |lines|
  {
    forall o :: 0 <= o < k && BareOpener(lines[o]) && TopLevel(lines, o) ==>
      (s.fixing && s.fixFenceStart == o) || !NotFixed(s.fixes, o)
  }

  /** Outside a target fence the fixes stay, and a bare opener at the top
      level starts a target fence: `Complete` is kept. */
  lemma {:induction false} CompleteScan(lines: seq<string>, k: nat, s: State, t: State)
    requires 0 < k <= |lines| && !s.fixing && NestingOf(s) == NestingAt(lines, k - 1) && Complete(lines, k - 1, s)
    requires t.fixes == s.fixes
    requires BareOpener(lines[k - 1]) && s.fenceStack == [] ==> t.fixing && t.fixFenceStart == k - 1
    ensures Complete(lines, k, t)
  {
  }

  /** A body line keeps the target fence and the fixes: `Complete` is kept. */
  lemma {:induction false} CompleteBuffer(lines: seq<string>, k: nat, s: State, t: State)
    requires 0 < k <= |lines| && s.fixing && NestingOf(s) == NestingAt(lines, k - 1) && Complete(lines, k - 1, s)
    requires t.fixes == s.fixes && t.fixing && t.fixFenceStart == s.fixFenceStart
    ensures Complete(lines, k, t)
  {
  }

  /** Closing the target fence records the fix of its opener: `Complete`
      is kept. */
  lemma {:induction false} CompleteClose(lines: seq<string>, k: nat, s: State, t: State, f: Fix)
    requires 0 < k <= |lines| && s.fixing && NestingOf(s) == NestingAt(lines, k - 1) && Complete(lines, k - 1, s)
    requires t.fixes == s.fixes + [f] && f.line == s.fixFenceStart + 1
    ensures Complete(lines, k, t)
  {
    forall o | 0 <= o < k && BareOpener(lines[o]) && TopLevel(lines, o)
      ensures !NotFixed(t.fixes, o)
    {
      if o == s.fixFenceStart {
        assert t.fixes[|s.fixes|] == f;
      } else {
        var a :| 0 <= a < |s.fixes| && s.fixes[a].line == o + 1;
        assert t.fixes[a] == s.fixes[a];
      }
    }
  }

  /** A turn of the loop keeps `Complete`. */
  lemma {:induction false} CompleteStep(lines: seq<string>, k: nat, s: State, detect: string -> string)
    requires 0 < k <= |lines| && NestingOf(s) == NestingAt(lines, k - 1) && Complete(lines, k - 1, s)
    ensures Complete(lines, k, Step(s, k - 1, lines[k - 1], detect))
  {
    var t := Step(s, k - 1, lines[k - 1], detect);
    if !s.fixing {
      ScanLine(s, k - 1, lines[k - 1], detect);
      if BareOpener(lines[k - 1]) && s.fenceStack == [] {
        TopLevelFenceLine(s, k - 1, lines[k - 1], detect);
      }
      CompleteScan(lines, k, s, t);
    } else {
      FixingLine(s, k - 1, lines[k - 1], detect);
      if Closes(lines[k - 1], s.fixOpenLen) {
        CompleteClose(lines, k, s, t, FixOf(s, detect));
      } else {
        CompleteBuffer(lines, k, s, t);
      }
    }
  }

  /** `Complete` holds after every prefix of the lines. */
  lemma {:induction false} CompleteRun(lines: seq<string>, k: nat, detect: string -> string)
    requires k <= |lines|
    ensures Complete(lines, k, Run(lines, k, detect))
  {
    if k > 0 {
      CompleteRun(lines, k - 1, detect);
      RunKeeps(lines, k - 1, detect);
      CompleteStep(lines, k, Run(lines, k - 1, detect), detect);
    }
  }

  // ---------------------------------------------------------------------
  // The whole file.

  /** When the file ends inside a target fence, nothing changes. */
  lemma AbortKeepsContent(content: string, isJson: string -> bool)
    requires Aborted(content, isJson)
    ensures FixOutcome(content, isJson) == Outcome([], false, content)
  {
  }

  /** Otherwise every line is kept except the fixed openers, in order, every
      bare opener at the top level is fixed, and `modified` says whether
      there was a fix. */
  lemma {:induction false} FixFileRewrites(content: string, isJson: string -> bool)
    requires !Aborted(content, isJson)
    ensures var lines := SplitLines(content);
      var s := Run(lines, |lines|, Detector(isJson));
      var r := FixOutcome(content, isJson);
      |s.newLines| == |lines| && r.fixes == s.fixes
      && (r.modified <==> r.fixes != [])
      && Increasing(r.fixes)
      && AllFixesOk(lines, r.fixes, Detector(isJson))
      && (forall a :: 0 <= a < |r.fixes| ==> s.newLines[r.fixes[a].line - 1] == r.fixes[a].fixed)
      && (forall j :: 0 <= j < |lines| && NotFixed(r.fixes, j) ==> s.newLines[j] == lines[j])
      && (forall o :: 0 <= o < |lines| && BareOpener(lines[o]) && TopLevel(lines, o) ==> !NotFixed(r.fixes, o))
      && r.newContent == Join(s.newLines, "\n") + (if EndsWith(content, "\n") then "\n" else "")
  {
    var lines := SplitLines(content);
    RunKeeps(lines, |lines|, Detector(isJson));
    CompleteRun(lines, |lines|, Detector(isJson));
  }

  /** A file without carriage returns that needs no fix comes back as it
      was, except that a final line feed is doubled: the empty last line
      the split leaves behind is joined back, and then one more line feed is
      appended. */
  lemma NoFixDoublesFinalNewline(content: string, isJson: string -> bool)
    requires !Aborted(content, isJson) && FixOutcome(content, isJson).fixes == [] && '\r' !in content
    ensures !FixOutcome(content, isJson).modified
    ensures FixOutcome(content, isJson).newContent == content + (if EndsWith(content, "\n") then "\n" else "")
  {
    var lines := SplitLines(content);
    var s := Run(lines, |lines|, Detector(isJson));
    FixFileRewrites(content, isJson);
    assert s.newLines == lines by {
      forall j | 0 <= j < |lines| ensures s.newLines[j] == lines[j] {
        assert NotFixed([], j);
      }
    }
    SplitLinesWithoutCR(content);
    JoinSplit(content, '\n');
  }

  /** A right fix names one of the languages `detectLanguage` knows, and
      the fixed opener ends with it. */
  lemma FixNamesKnownLanguage(lines: seq<string>, f: Fix, isJson: string -> bool)
    requires FixOk(lines, f, Detector(isJson))
    ensures f.detectedLanguage in Languages && EndsWith(f.fixed, "```" + f.detectedLanguage)
  {
    var o := f.line - 1;
    var m := FenceLineOf(lines[o]).value;
    var body := Join(Slice(lines, o + 1, FirstClose(lines, o + 1, m.ticks)), "\n");
    assert f.detectedLanguage == DetectLanguage(body, isJson);
    assert f.fixed == m.indent + ("```" + f.detectedLanguage);
    EndsWithAppend(m.indent, "```" + f.detectedLanguage);
  }

  /** So does every fix `fixFile` reports. */
  lemma FixesNameKnownLanguages(content: string, isJson: string -> bool)
    requires !Aborted(content, isJson)
    ensures var fixes := FixOutcome(content, isJson).fixes;
      forall a :: 0 <= a < |fixes| ==>
        fixes[a].detectedLanguage in Languages && EndsWith(fixes[a].fixed, "```" + fixes[a].detectedLanguage)
  {
    var lines := SplitLines(content);
    var fixes := FixOutcome(content, isJson).fixes;
    FixFileRewrites(content, isJson);
    forall a | 0 <= a < |fixes|
      ensures fixes[a].detectedLanguage in Languages && EndsWith(fixes[a].fixed, "```" + fixes[a].detectedLanguage)
    {
      FixNamesKnownLanguage(lines, fixes[a], isJson);
    }
  }
}
