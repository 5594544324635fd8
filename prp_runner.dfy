/** Two helpers of the PRP runner adapter
    (expansion-packs/bmad-prp-integration/tools/prp-runner-adapter.js):
    `buildRunnerCommand`, which assembles the argument vector of the Python
    runner, and `parseTextOutput`, which sorts the lines of the runner's text
    output into files, tests, errors and warnings. */
module PrpRunner {
  import opened Text

  // ---------------------------------------------------------------------
  // buildRunnerCommand

  /** `['python', args]`: the program and its arguments. */
  datatype Command = Command(program: string, args: seq<string>)

  /** The arguments a mode adds: `interactive`, `headless` (with the
      requested output format) and `streaming` (with `stream-json`); any
      other mode adds none. */
  function ModeArgs(mode: string, outputFormat: string): (r: seq<string>)
    ensures |r| <= 2
    ensures r == [] <==> mode != "interactive" && mode != "headless" && mode != "streaming"
    ensures r == ["--interactive"] <==> mode == "interactive"
    ensures |r| == 2 <==> mode == "headless" || mode == "streaming"
    ensures |r| == 2 ==> r[0] == "--output-format" && r[1] == (if mode == "headless" then outputFormat else "stream-json")
  {
    if mode == "interactive" then ["--interactive"]
    else if mode == "headless" then ["--output-format", outputFormat]
    else if mode == "streaming" then ["--output-format", "stream-json"]
    else []
  }

  /** The arguments of the runner: its script, the PRP file, the mode's
      arguments and, last, `--verbose` when asked for. */
  function RunnerArgs(runnerPath: string, prpPath: string, mode: string, outputFormat: string,
                      verbose: bool): seq<string>
  {
    [runnerPath, "--prp-path", prpPath] + ModeArgs(mode, outputFormat) + (if verbose then ["--verbose"] else [])
  }

  /** `buildRunnerCommand(prpPath, { mode, outputFormat, verbose })` with
      `this.config.runnerPath` passed in as `runnerPath`. */
  method BuildRunnerCommand(runnerPath: string, prpPath: string, mode: string, outputFormat: string,
                            verbose: bool) returns (command: Command)
    ensures command == Command("python", RunnerArgs(runnerPath, prpPath, mode, outputFormat, verbose))
  {
    var args := [runnerPath, "--prp-path", prpPath];
    if mode == "interactive" {
      args := args + ["--interactive"];
    } else if mode == "headless" {
      args := args + ["--output-format", outputFormat];
    } else if mode == "streaming" {
      args := args + ["--output-format", "stream-json"];
    }
    if verbose {
      args := args + ["--verbose"];
    }
    return Command("python", args);
  }

  /** The runner script comes first, then the PRP file after its flag, then
      at most two mode arguments, and the length says whether `--verbose`
      was added; when it was, it is the last argument. */
  lemma RunnerArgsLayout(runnerPath: string, prpPath: string, mode: string, outputFormat: string, verbose: bool)
    ensures var args := RunnerArgs(runnerPath, prpPath, mode, outputFormat, verbose);
      var n := |ModeArgs(mode, outputFormat)|;
      |args| >= 3 && args[0] == runnerPath && args[1] == "--prp-path" && args[2] == prpPath
      && args[3..3 + n] == ModeArgs(mode, outputFormat)
      && (verbose <==> |args| == 4 + n)
      && (!verbose <==> |args| == 3 + n)
      && (verbose ==> args[|args| - 1] == "--verbose")
  {
    var args := RunnerArgs(runnerPath, prpPath, mode, outputFormat, verbose);
    var n := |ModeArgs(mode, outputFormat)|;
    assert args[3..3 + n] == ModeArgs(mode, outputFormat);
  }

  /** Streaming is headless output in the `stream-json` format. */
  lemma StreamingIsHeadlessStreamJson(runnerPath: string, prpPath: string, outputFormat: string, verbose: bool)
    ensures RunnerArgs(runnerPath, prpPath, "streaming", outputFormat, verbose)
         == RunnerArgs(runnerPath, prpPath, "headless", "stream-json", verbose)
  {
  }

  /** A mode the adapter does not know adds nothing: the command is the one
      with no mode arguments at all, and the output format is ignored. */
  lemma UnknownModeAddsNothing(runnerPath: string, prpPath: string, mode: string, outputFormat: string, verbose: bool)
    requires mode != "interactive" && mode != "headless" && mode != "streaming"
    ensures RunnerArgs(runnerPath, prpPath, mode, outputFormat, verbose)
         == [runnerPath, "--prp-path", prpPath] + (if verbose then ["--verbose"] else [])
  {
  }

  /** Within one mode, the arguments determine the PRP file and the verbose
      flag. */
  lemma RunnerArgsInjective(runnerPath: string, mode: string, outputFormat: string,
                            prpPath1: string, verbose1: bool, prpPath2: string, verbose2: bool)
    requires RunnerArgs(runnerPath, prpPath1, mode, outputFormat, verbose1)
          == RunnerArgs(runnerPath, prpPath2, mode, outputFormat, verbose2)
    ensures prpPath1 == prpPath2 && verbose1 == verbose2
  {
    RunnerArgsLayout(runnerPath, prpPath1, mode, outputFormat, verbose1);
    RunnerArgsLayout(runnerPath, prpPath2, mode, outputFormat, verbose2);
  }

  // ---------------------------------------------------------------------
  // parseTextOutput

  /** The four lists `parseTextOutput` returns. */
  datatype Parsed = Parsed(files: seq<string>, tests: seq<string>, errors: seq<string>, warnings: seq<string>)

  /** Where a line goes: a file entry, holding the captured path before it is
      trimmed; one of the other lists; or nowhere. */
  datatype Route = ToFiles(capture: string) | ToTests | ToErrors | ToWarnings | Nowhere

  /** The first line terminator at or after `i`, or the end: how far `.+`
      reaches from `i`. */
  function LineEnd(s: string, i: nat): (e: nat)
    requires i <= |s|
    ensures i <= e <= |s|
    ensures e < |s| ==> IsLineTerminator(s[e])
    ensures forall j :: i <= j < e ==> !IsLineTerminator(s[j])
    decreases |s| - i
  {
    if i == |s| || IsLineTerminator(s[i]) then i else LineEnd(s, i + 1)
  }

  /** The last position in `[q, w)` that `.` can match, found by giving
      back the white space `\s*` took, one character at a time. */
  function GiveBack(s: string, q: nat, w: nat): (b: Option<nat>)
    requires q <= w <= |s|
    ensures b.Some? ==> q <= b.value < w && !IsLineTerminator(s[b.value])
    ensures b.Some? ==> forall j :: b.value < j < w ==> IsLineTerminator(s[j])
    ensures b.None? ==> forall j :: q <= j < w ==> IsLineTerminator(s[j])
    decreases w - q
  {
    if w == q then None
    else if !IsLineTerminator(s[w - 1]) then Some(w - 1)
    else GiveBack(s, q, w - 1)
  }

  /** `\s*(.+)` tried at `q`: the greedy `\s*` takes the whole run of white
      space, then gives back characters until `.+` can match at least one,
      and `.+` runs to the end of the line. The result is group 1. */
  function CaptureAt(s: string, q: nat): (g: Option<string>)
    requires q <= |s|
    ensures g.Some? ==> g.value != [] && forall j :: 0 <= j < |g.value| ==> !IsLineTerminator(g.value[j])
  {
    var w := SpaceEnd(s, q);
    if w < |s| && !IsLineTerminator(s[w]) then Some(s[w..LineEnd(s, w)])
    else
      var b := GiveBack(s, q, w);
      if b.Some? then Some(s[b.value..LineEnd(s, b.value)]) else None
  }

  /** `\s*` can take `s[q..b]` and `(.+)` can then start at `b`. */
  predicate CaptureStart(s: string, q: nat, b: int) {
    q <= b < |s| && (forall j :: q <= j < b ==> IsSpace(s[j])) && !IsLineTerminator(s[b])
  }

  /** `\s*(.+)` matches at `q` exactly when `(.+)` has somewhere to start,
      and the group is the rest of the line from the latest such start, the
      one the greedy `\s*` leaves. */
  lemma CaptureAtMatches(s: string, q: nat)
    requires q <= |s|
    ensures CaptureAt(s, q).Some? <==> exists b :: CaptureStart(s, q, b)
    ensures forall b ::
      (CaptureStart(s, q, b) && (forall j :: b < j ==> !CaptureStart(s, q, j))) ==> CaptureAt(s, q) == Some(s[b..LineEnd(s, b)])
  {
    var w := SpaceEnd(s, q);
    StartsBeforeSpaceEnd(s, q);
    if w < |s| && !IsLineTerminator(s[w]) {
      assert CaptureStart(s, q, w);
    } else {
      var g := GiveBack(s, q, w);
      if g.Some? {
        assert CaptureStart(s, q, g.value);
      }
    }
  }

  /** Every place `(.+)` can start lies within the white space at `q`. */
  lemma StartsBeforeSpaceEnd(s: string, q: nat)
    requires q <= |s|
    ensures forall j :: q <= j < SpaceEnd(s, q) ==> IsSpace(s[j])
    ensures forall b :: CaptureStart(s, q, b) ==> b <= SpaceEnd(s, q)
  {
    SpaceEndIsRun(s, q);
  }

  /** Where the pattern `(?:Created|Modified):` ends when it starts at `p`. */
  function MarkerEnd(s: string, p: nat): (q: Option<nat>)
    requires p <= |s|
    ensures q.Some? ==> p < q.value <= |s|
  {
    if StartsWith(s[p..], "Created:") then Some(p + 8)
    else if StartsWith(s[p..], "Modified:") then Some(p + 9)
    else None
  }

  /** `line.match(/(?:Created|Modified):\s*(.+)/)`, searching from `p`:
      group 1 of the leftmost match. */
  function FileMatchFrom(s: string, p: nat): (g: Option<string>)
    requires p <= |s|
    decreases |s| - p
  {
    if p == |s| then None
    else
      var q := MarkerEnd(s, p);
      if q.Some? && CaptureAt(s, q.value).Some? then CaptureAt(s, q.value)
      else FileMatchFrom(s, p + 1)
  }

  /** The `if`/`else if` chain of the loop, for one line. A line that
      mentions `Created:` or `Modified:` goes to the files or nowhere, even
      when the pattern finds no path. */
  function RouteOf(line: string): Route {
    if Contains(line, "Created:") || Contains(line, "Modified:") then
      var g := FileMatchFrom(line, 0);
      if g.Some? then ToFiles(g.value) else Nowhere
    else if Contains(line, "test") && Contains(line, "passed") then ToTests
    else if Contains(line, "ERROR:") || Contains(line, "FAILED:") then ToErrors
    else if Contains(line, "WARNING:") || Contains(line, "Warning:") then ToWarnings
    else Nowhere
  }

  /** The lists after one more line. */
  function Add(p: Parsed, line: string): Parsed {
    match RouteOf(line)
    case ToFiles(g) => p.(files := p.files + [Trim(g)])
    case ToTests => p.(tests := p.tests + [Trim(line)])
    case ToErrors => p.(errors := p.errors + [Trim(line)])
    case ToWarnings => p.(warnings := p.warnings + [Trim(line)])
    case Nowhere => p
  }

  /** The lists after the lines `lines`, in order. */
  function Sorted(lines: seq<string>): Parsed {
    if lines == [] then Parsed([], [], [], [])
    else Add(Sorted(lines[..|lines| - 1]), lines[|lines| - 1])
  }

  /** `parseTextOutput(output)`. */
  method ParseTextOutput(output: string) returns (result: Parsed)
    ensures result == Sorted(Split(output, '\n'))
  {
    var lines := Split(output, '\n');
    var files: seq<string> := [];
    var tests: seq<string> := [];
    var errors: seq<string> := [];
    var warnings: seq<string> := [];
    for i := 0 to |lines|
      invariant Parsed(files, tests, errors, warnings) == Sorted(lines[..i])
    {
      var line := lines[i];
      if Contains(line, "Created:") || Contains(line, "Modified:") {
        var fileMatch := FileMatchFrom(line, 0);
        if fileMatch.Some? {
          files := files + [Trim(fileMatch.value)];
        }
      } else if Contains(line, "test") && Contains(line, "passed") {
        tests := tests + [Trim(line)];
      } else if Contains(line, "ERROR:") || Contains(line, "FAILED:") {
        errors := errors + [Trim(line)];
      } else if Contains(line, "WARNING:") || Contains(line, "Warning:") {
        warnings := warnings + [Trim(line)];
      }
      assert lines[..i + 1][..i] == lines[..i];
    }
    assert lines[..|lines|] == lines;
    return Parsed(files, tests, errors, warnings);
  }

  // ---------------------------------------------------------------------
  // What the lists hold.

  /** The trimmed lines that the chain sends to `route`, in order. */
  function Gather(lines: seq<string>, route: Route): (r: seq<string>)
    ensures |r| <= |lines|
  {
    if lines == [] then []
    else Gather(lines[..|lines| - 1], route) + (if RouteOf(lines[|lines| - 1]) == route then [Trim(lines[|lines| - 1])] else [])
  }

  /** The trimmed captures of the lines the chain sends to the files, in
      order. */
  function GatherFiles(lines: seq<string>): (r: seq<string>)
    ensures |r| <= |lines|
  {
    if lines == [] then []
    else
      var last := RouteOf(lines[|lines| - 1]);
      GatherFiles(lines[..|lines| - 1]) + (if last.ToFiles? then [Trim(last.capture)] else [])
  }

  function Total(p: Parsed): nat { |p.files| + |p.tests| + |p.errors| + |p.warnings| }

  /** The number of lines the chain sends somewhere. */
  function Routed(lines: seq<string>): (n: nat)
    ensures n <= |lines|
  {
    if lines == [] then 0 else Routed(lines[..|lines| - 1]) + (if RouteOf(lines[|lines| - 1]) != Nowhere then 1 else 0)
  }

  /** Each list is the lines sent to it, trimmed and in the order of the
      output, so no line lands in two lists; the files list holds the
      trimmed paths only. Together the lists have one entry per routed line,
      hence at most one per line. */
  lemma {:induction false} SortedIsGathered(lines: seq<string>)
    ensures var p := Sorted(lines);
      p.files == GatherFiles(lines)
      && p.tests == Gather(lines, ToTests)
      && p.errors == Gather(lines, ToErrors)
      && p.warnings == Gather(lines, ToWarnings)
      && Total(p) == Routed(lines) <= |lines|
  {
    if lines != [] {
      var init, last := lines[..|lines| - 1], lines[|lines| - 1];
      SortedIsGathered(init);
      assert Sorted(lines) == Add(Sorted(init), last);
      match RouteOf(last)
      case ToFiles(g) =>
      case ToTests =>
      case ToErrors =>
      case ToWarnings =>
      case Nowhere =>
    }
  }

  /** A test line is `test` and `passed` in a line without a file marker;
      an error or warning line is one that none of the earlier tests took. */
  lemma RoutePriority(line: string)
    ensures RouteOf(line) == ToTests <==>
      !Contains(line, "Created:") && !Contains(line, "Modified:") && Contains(line, "test") && Contains(line, "passed")
    ensures RouteOf(line) == ToErrors <==>
      !Contains(line, "Created:") && !Contains(line, "Modified:") && !(Contains(line, "test") && Contains(line, "passed"))
      && (Contains(line, "ERROR:") || Contains(line, "FAILED:"))
    ensures RouteOf(line).ToFiles? ==> Contains(line, "Created:") || Contains(line, "Modified:")
  {
  }

  /** `Created: <path>` records the path, when the path has no white space
      at either end and no line terminator. */
  lemma CreatedLine(path: string)
    requires path != [] && !IsSpace(path[0]) && !IsSpace(path[|path| - 1])
    requires forall j :: 0 <= j < |path| ==> !IsLineTerminator(path[j])
    ensures Sorted(["Created: " + path]) == Parsed([path], [], [], [])
  {
    var line := "Created: " + path;
    assert line[0..][..8] == "Created:";
    assert MarkerEnd(line, 0) == Some(8);
    assert line[9] == path[0];
    assert SpaceEnd(line, 8) == 9;
    LineEndAll(line, 9);
    assert !IsLineTerminator(line[9]);
    assert line[9..|line|] == path;
    assert CaptureAt(line, 8) == Some(path);
    assert FileMatchFrom(line, 0) == Some(path);
    assert line[..8] == "Created:";
    assert RouteOf(line) == ToFiles(path);
    TrimOfUntrimmable(path);
    assert [line][..0] == [];
  }

  lemma {:induction false} LineEndAll(s: string, i: nat)
    requires i <= |s| && forall j :: i <= j < |s| ==> !IsLineTerminator(s[j])
    ensures LineEnd(s, i) == |s|
    decreases |s| - i
  {
    if i < |s| {
      LineEndAll(s, i + 1);
    }
  }

  /** A marker followed by blanks only still matches: `\s*` gives back one
      blank to `.+`, and the recorded path is empty. */
  lemma MarkerThenBlanks(blanks: string)
    requires blanks != [] && forall j :: 0 <= j < |blanks| ==> blanks[j] == ' '
    ensures Sorted(["Modified:" + blanks]) == Parsed([""], [], [], [])
  {
    var line := "Modified:" + blanks;
    assert line[0..] == line;
    assert line[0] == 'M';
    assert line[..9] == "Modified:";
    assert MarkerEnd(line, 0) == Some(9);
    SpaceEndAll(line, 9);
    var e := |line| - 1;
    assert line[e] == ' ';
    assert GiveBack(line, 9, |line|) == Some(e);
    assert LineEnd(line, e) == |line|;
    var g := line[e..|line|];
    assert g == [' '];
    assert CaptureAt(line, 9) == Some(g);
    assert FileMatchFrom(line, 0) == Some(g);
    assert RouteOf(line) == ToFiles(g);
    assert Trim(g) == [];
    assert [line][..0] == [];
  }

  lemma {:induction false} SpaceEndAll(s: string, i: nat)
    requires i <= |s| && forall j :: i <= j < |s| ==> s[j] == ' '
    ensures SpaceEnd(s, i) == |s|
    decreases |s| - i
  {
    if i < |s| {
      SpaceEndAll(s, i + 1);
    }
  }
}
