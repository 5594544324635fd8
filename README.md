# Markdown tooling and PRP runner helpers, modelled in Dafny

This project models three small pieces of line-oriented text logic from the
BMAD method repository, and proves what they do:

- **The Markdown conformance checker** is `checkFile` in
  `tools/markdown/check-md-conformance.js`. It splits a file's text into lines.
  A first pass marks the lines that belong to code fences. It then reports,
  in this order:
  - fence problems: a missing language, a missing blank line before an
    opening fence, a missing blank line after a closing fence;
  - list problems: a missing blank line before or after a list block, and a
    bullet marker that is not `-`;
  - table problems: a missing blank line before or after a table block.
- **The fence-language fixer** is `fixFile` and `detectLanguage` in
  `tools/markdown/fix-fence-languages.js`. One pass over the lines finds every
  bare top-level code fence, meaning three or more backticks with nothing
  after them. It guesses the body's language with an ordered chain of tests
  and rewrites the opener to name that language. Outer fences are tracked on
  a stack. The fixer gives up and returns the text unchanged when a target
  fence never closes.
- **Two helpers of the PRP runner adapter**, in
  `expansion-packs/bmad-prp-integration/tools/prp-runner-adapter.js`:
  - `buildRunnerCommand` assembles the argument vector of the Python PRP
    runner;
  - `parseTextOutput` sorts the lines of the runner's text output into files,
    tests, errors and warnings.

Files:

- `text.dfy` (`Text`) holds the string vocabulary the three tools share:
  - JavaScript's `trim`, `trimStart` and `trimEnd` over a fixed white-space
    set;
  - `split` on a character, together with `join`;
  - `split(/\r?\n/)`;
  - `Slice`, a sub-sequence built one element at a time from its end. It is
    proved equal to Dafny's `xs[a..b]`. The fixer's proofs use it for the body
    of a fence, which grows by one line per turn of the loop.
- `conformance.dfy` (`MdConformance`) holds:
  - the checker's line predicates;
  - the exclusion pass, which fills an `array<bool>` in place;
  - the three reporting passes, as methods with their loops;
  - `CheckFile`.
  Each pass is proved equal to a specification function: `FenceViolations`
  for the fence pass, and `ByLine` for the list and table passes. `ByLine`
  lists, line by line, what each line of a block reports.
- `conformance_facts.dfy` (`MdConformanceFacts`) proves the checker's rules
  about those specification functions. Each rule holds in both directions,
  and the lemmas also cover line numbers, order and counts.
- `fence_language.dfy` (`FenceLanguage`) holds `detectLanguage` and its
  properties.
- `fence_fixer.dfy` (`FenceFixer`) holds the fixer's two line patterns and
  one turn of its loop as a function (`Step`). It also holds the loop as
  imperative methods (`Turn`, `Scan`, `FixFile`) over the same variables as
  the source.
- `fence_fixer_facts.dfy` (`FenceFixerFacts`) holds the loop invariant and
  what follows from it:
  - which output lines change;
  - what each fix record holds;
  - the abort path;
  - what happens to the final newline.
- `prp_runner.dfy` (`PrpRunner`) holds `buildRunnerCommand` and
  `parseTextOutput` as imperative methods, with the functions they are proved
  against.

Modelling choices:

- **White space.** "White space" (`\s` and `trim`) is a fixed character set:
  - space, tab, line feed, vertical tab, form feed, carriage return;
  - no-break space, U+1680, U+2000 to U+200A;
  - the line and paragraph separators;
  - U+202F, U+205F, U+3000 and U+FEFF.

  A line terminator is a line feed, a carriage return, U+2028 or U+2029.
- **Regular expressions.** Each one is written out as explicit character
  tests and index scans. No regex engine is modelled. The doc comment on each
  predicate gives the pattern it stands for.
- **JSON.** `JSON.parse` succeeding is an uninterpreted parameter
  `isJson: string -> bool`.
- **Inputs.** File contents are passed in as strings. The runner script path
  is passed in as `runnerPath`.

Noteworthy behaviours of the code, which the model follows:

- **The checker does not keep a fence stack.** Every line that starts with
  three backticks toggles the fence state, including a closing line such as
  "```bash". The checker never compares run lengths.
- **The list pass's inner loop does not read `excluded` in its stop
  condition.** While it extends a list block, it stops only at a line that is
  not a list line. It still reads `excluded` for each line of the block in
  the bullet check. `ListRunStops` proves why this agrees with stopping at
  excluded lines: excluded regions start at fence lines, and no fence line is
  a list line.
- **The first line of a list block is checked twice for its bullet marker.**
  A block that starts with `* x` therefore carries two identical
  `bullet-marker` reports. `BulletRule` states this.
- **The fixer always writes exactly three backticks, whatever the opener's
  run length was.** Inside a target fence, it closes at the first line made
  of backticks and white space whose run is at least as long as the
  opener's. A tagged fence nested inside the target fence is not tracked.
- **Carriage returns are not put back.** Lines are rejoined with `\n`. In the
  non-abort case, a file that ends in a newline gains a second one. This is
  stated by `FixFileRewrites` and `NoFixDoublesFinalNewline`.

## Model

| member | source | states |
|---|---|---|
| Text.Trim | tools/markdown/fix-fence-languages.js:28 | the result has no white space at either end, and is empty exactly when the text is all white space |
| Text.TrimIdempotent | tools/markdown/fix-fence-languages.js:28 | trimming twice is trimming once |
| Text.TrimAfterTrimStart | tools/markdown/check-md-conformance.js:56-58 | trimming after `trimStart` is trimming |
| Text.TrimStart | tools/markdown/check-md-conformance.js:56-58 | removes only white space, from the front, and stops at the first character that is not white space |
| Text.TrimEnd | tools/markdown/check-md-conformance.js:56-58 | removes only white space, from the end, and stops at the last character that is not white space |
| Text.Split | expansion-packs/bmad-prp-integration/tools/prp-runner-adapter.js:231 | `split('\n')` gives at least one part, and no part holds the separator |
| Text.JoinSplit | expansion-packs/bmad-prp-integration/tools/prp-runner-adapter.js:231 | joining the parts of a split with the separator gives back the text |
| Text.SplitJoin | expansion-packs/bmad-prp-integration/tools/prp-runner-adapter.js:231 | splitting a join of separator-free parts gives back the parts |
| Text.SplitLines | tools/markdown/check-md-conformance.js:78 | `split(/\r?\n/)`: one line more than the text has line feeds, and no line holds a line feed; `SplitLinesIsSplit` gives what each line holds |
| Text.SplitLinesIsSplit | tools/markdown/check-md-conformance.js:78 | the lines are the parts of a split on line feeds; every part but the last loses one trailing carriage return, and the last part is kept whole |
| Text.SplitLinesWithoutCR | tools/markdown/fix-fence-languages.js:86 | without carriage returns, the lines are the parts of a split on line feeds |
| Text.Slice | tools/markdown/fix-fence-languages.js:116 | a slice from `a` to `b` has `b - a` elements |
| Text.SliceIsSlice | tools/markdown/fix-fence-languages.js:116 | the slice helper is the sequence slice `xs[a..b]` |
| MdConformance.BulletMarkerOf | tools/markdown/check-md-conformance.js:46-53 | `bulletMarker` finds a marker exactly when `isBulletLine` holds, the marker is `-`, `*` or `+`, and every bullet line is a list line |
| MdConformance.FenceLanguage | tools/markdown/check-md-conformance.js:67-70 | a language is found only on a fence line and is made of `[a-zA-Z0-9_+-]` characters; on a fence line it is the longest such run right after the backticks and the white space that follows them, possibly empty |
| MdConformance.FenceLineIsNotListOrTable | tools/markdown/check-md-conformance.js:42-65 | a fence line is neither a list line nor a table line |
| MdConformance.TableLineAsWritten | tools/markdown/check-md-conformance.js:55-61 | a line is a table line exactly when its trimmed form does not start with three backticks, it holds a pipe, and it is not a lone pipe in white space |
| MdConformance.InsideFenceIsOddCount | tools/markdown/check-md-conformance.js:82-98 | the toggled `inFence` before line `i` is set exactly when an odd number of fence lines come before it |
| MdConformance.ExcludedMask | tools/markdown/check-md-conformance.js:85-98 | one flag per line, set exactly when the line is a fence line or follows an odd number of fence lines |
| MdConformance.MarkExcluded | tools/markdown/check-md-conformance.js:82-98 | pass 1 fills `excluded` in place with exactly the mask above |
| MdConformance.ExcludedRegionStartsAtFence | tools/markdown/check-md-conformance.js:86-97 | an excluded line that is not a fence line follows another excluded line |
| MdConformance.ExcludedMaskWellMasked | tools/markdown/check-md-conformance.js:86-97 | every fence line is excluded, and no excluded region starts at a line that is not a fence line |
| MdConformance.FencePass | tools/markdown/check-md-conformance.js:101-144 | the fence loop reports exactly the fence reports of each line, in line order |
| MdConformance.RunStops | tools/markdown/check-md-conformance.js:173-174 | a block ends at the end of the text or at the first line that is not a candidate |
| MdConformance.ScanIsByLine | tools/markdown/check-md-conformance.js:146-228 | the block-by-block scan reports what each line of each block reports, line by line |
| MdConformance.ListBlocks | tools/markdown/check-md-conformance.js:146-196 | the list pass's blocks: candidates are the list lines that are not excluded, one blank flag and one bullet check per line |
| MdConformance.ListRunStops | tools/markdown/check-md-conformance.js:173-174 | a list block that starts at a line that is not excluded ends at the end of the text or at a line that is not a list line, so that the inner loop, which reads only `isListLine`, ends where the block ends |
| MdConformance.ListChecks | tools/markdown/check-md-conformance.js:172-182 | the inner list loop stops at the block's end and adds the bullet checks of the block's lines |
| MdConformance.ListPass | tools/markdown/check-md-conformance.js:146-196 | the list loop reports exactly what the list blocks report line by line |
| MdConformance.TableBlocks | tools/markdown/check-md-conformance.js:198-228 | the table pass's blocks: candidates are the table lines that are not excluded, with no per-line check |
| MdConformance.TableEnd | tools/markdown/check-md-conformance.js:208-209 | the inner table loop stops at the end of the block |
| MdConformance.TablePass | tools/markdown/check-md-conformance.js:198-228 | the table loop reports exactly what the table blocks report line by line |
| MdConformance.CheckFile | tools/markdown/check-md-conformance.js:76-231 | `checkFile` returns the fence reports, then the list reports, then the table reports of the file's lines |
| MdConformanceFacts.ByLineInOrder | tools/markdown/check-md-conformance.js:146-228 | a block pass reports in non-decreasing line order, only on candidate lines, and only its own kinds |
| MdConformanceFacts.BeforeRule | tools/markdown/check-md-conformance.js:158-161 | a blank-before report is on line `j` exactly when a block starts there and the line before exists and is not blank |
| MdConformanceFacts.AfterRule | tools/markdown/check-md-conformance.js:184-189 | a blank-after report is on line `j` exactly when a block ends there and the line after exists and is not blank |
| MdConformanceFacts.CheckRule | tools/markdown/check-md-conformance.js:164-180 | a per-line check is reported twice on a block's first line, once on its other lines, and never outside a block |
| MdConformanceFacts.ListReportsInOrder | tools/markdown/check-md-conformance.js:146-196 | list reports are in line order, lie in 1..n, are on lines of a list block (never on excluded lines), and are list kinds only |
| MdConformanceFacts.ListBlankBeforeRule | tools/markdown/check-md-conformance.js:154-162 | `list-blank-before` is on line `j` exactly when a list block starts there and the line before exists and is not blank |
| MdConformanceFacts.ListBlankAfterRule | tools/markdown/check-md-conformance.js:184-190 | `list-blank-after` is on line `j` exactly when a list block ends there and the line after exists and is not blank |
| MdConformanceFacts.BulletRule | tools/markdown/check-md-conformance.js:164-180 | a `bullet-marker` report for marker `c` is on line `j` twice when the line starts a list block with a bullet `c` other than `-`, once when it is a later line of a block, and never otherwise |
| MdConformanceFacts.TableReportsInOrder | tools/markdown/check-md-conformance.js:198-228 | table reports are in line order, lie in 1..n, are on lines of a table block (never on excluded lines), and are table kinds only |
| MdConformanceFacts.TableBlankBeforeRule | tools/markdown/check-md-conformance.js:210-215 | `table-blank-before` is on line `j` exactly when a table block starts there and the line before exists and is not blank |
| MdConformanceFacts.TableBlankAfterRule | tools/markdown/check-md-conformance.js:216-222 | `table-blank-after` is on line `j` exactly when a table block ends there and the line after exists and is not blank |
| MdConformanceFacts.FenceReportsInOrder | tools/markdown/check-md-conformance.js:101-144 | fence reports are in line order, lie in 1..n, are only on fence lines, and are fence kinds only |
| MdConformanceFacts.FenceRules | tools/markdown/check-md-conformance.js:103-141 | an opening fence line gets `fence-language-missing` exactly when it has no language, and `fence-blank-before` exactly when the previous line exists and is not blank; a closing fence line gets `fence-blank-after` exactly when the next line exists and is not blank |
| MdConformanceFacts.CheckInOrder | tools/markdown/check-md-conformance.js:76-231 | the result is fence reports, then list reports, then table reports, each in line order; no list or table report is on an excluded line; every line number lies in 1..n |
| FenceLanguage.DetectLanguage | tools/markdown/fix-fence-languages.js:27-79 | the tag is one of the seven non-empty tags, it is `text` for white-space content, and each of yaml, json, bash and javascript is returned exactly when its test matches and no earlier test does |
| FenceLanguage.DetectLanguageOfTrimmed | tools/markdown/fix-fence-languages.js:28 | the tag depends on the trimmed content only |
| FenceLanguage.ExportIsShell | tools/markdown/fix-fence-languages.js:49-58 | a body starting `export ` (with no `---` line) is `bash`, although `export` is a JavaScript keyword too |
| FenceLanguage.KeyIsYaml | tools/markdown/fix-fence-languages.js:34-36 | `key: value` is `yaml` |
| FenceLanguage.ObjectIsJson | tools/markdown/fix-fence-languages.js:39-46 | a braced body that parses, with no `---` line, is `json` |
| FenceFixer.CloseRunMatches | tools/markdown/fix-fence-languages.js:107-109 | the close pattern matches exactly a line of white space, backticks and white space, and reports the run's length |
| FenceFixer.FenceLineParts | tools/markdown/fix-fence-languages.js:142-148 | a fence match splits the line into a white-space indent, a longest run of at least three backticks, and a rest without line terminators; the indent is what `trimStart` removes |
| FenceFixer.FenceLineMatches | tools/markdown/fix-fence-languages.js:142-148 | conversely, a white-space indent, three or more backticks and a rest without line terminators always match; the groups are those parts when the rest does not start with a backtick, and the line is a bare opener when the rest is white space |
| FenceFixer.PreviewShape | tools/markdown/fix-fence-languages.js:123 | the preview is `...` after the first two body lines joined: all of them when they fit in 60 characters, their first 60 otherwise |
| FenceFixer.Turn | tools/markdown/fix-fence-languages.js:105-189 | one turn of the loop moves its variables as `Step` says |
| FenceFixer.Scan | tools/markdown/fix-fence-languages.js:92-190 | the loop over all lines ends in the state `Run` reaches |
| FenceFixer.FixFile | tools/markdown/fix-fence-languages.js:84-208 | `fixFile` returns the outcome `FixOutcome` specifies: unchanged on abort, otherwise the fixes and the joined lines |
| FenceFixerFacts.FixingLine | tools/markdown/fix-fence-languages.js:106-127 | in fixing mode a line closes the fence exactly when it is a backtick-only line with a long enough run; then the fixed opener, the buffered body and the line are emitted and one fix is recorded; otherwise the line is only buffered |
| FenceFixerFacts.TaggedLineNeverCloses | tools/markdown/fix-fence-languages.js:107-111 | a fence line with text after its backticks never closes a target fence |
| FenceFixerFacts.NestedFenceLine | tools/markdown/fix-fence-languages.js:150-167 | with outer fences open, a fence line is emitted unchanged; it pops when bare and at least as long as the top, and pushes otherwise |
| FenceFixerFacts.TopLevelFenceLine | tools/markdown/fix-fence-languages.js:168-185 | at the top level, a fence line starts fixing mode exactly when it is bare, recording its indent, line and run; a tagged one is emitted and becomes the only outer fence |
| FenceFixerFacts.FirstClose | tools/markdown/fix-fence-languages.js:107-111 | the first line from a given one on that can close a fence of `n` backticks, or the end |
| FenceFixerFacts.StepKeeps | tools/markdown/fix-fence-languages.js:105-189 | each turn keeps the loop invariant: lines placed, fixes right and increasing, the nesting as the lines say |
| FenceFixerFacts.RunKeeps | tools/markdown/fix-fence-languages.js:104-190 | the invariant holds after any number of lines |
| FenceFixerFacts.AbortKeepsContent | tools/markdown/fix-fence-languages.js:192-200 | a target fence that never closes gives no fixes, `modified` false and the content unchanged |
| FenceFixerFacts.FixFileRewrites | tools/markdown/fix-fence-languages.js:113-207 | without abort, there is one output line per input line, `modified` holds exactly when there is a fix, fix lines strictly increase, each fix is right for its line, every bare opener at the top level has a fix, the fixed line holds the new opener, every other line is unchanged, and the text is the lines joined plus a newline when the input ended in one |
| FenceFixerFacts.CompleteRun | tools/markdown/fix-fence-languages.js:105-185 | after each prefix of the lines, every bare opener at the top level has a fix, or is the opener of the target fence being read |
| FenceFixerFacts.NoFixDoublesFinalNewline | tools/markdown/fix-fence-languages.js:202-207 | with no fix and no carriage return, the output is the input plus one more newline when the input ended in a newline |
| FenceFixerFacts.FixNamesKnownLanguage | tools/markdown/fix-fence-languages.js:113-122 | a fix names one of the tags `detectLanguage` can return, and its opener ends in three backticks and that tag |
| FenceFixerFacts.FixesNameKnownLanguages | tools/markdown/fix-fence-languages.js:113-122 | every fix `fixFile` records names a known tag right after three backticks |
| PrpRunner.ModeArgs | expansion-packs/bmad-prp-integration/tools/prp-runner-adapter.js:100-107 | `interactive` adds exactly `--interactive`, `headless` and `streaming` add `--output-format` with the requested format or `stream-json`, and any other mode adds nothing |
| PrpRunner.BuildRunnerCommand | expansion-packs/bmad-prp-integration/tools/prp-runner-adapter.js:92-115 | the command is `python` with the runner arguments |
| PrpRunner.RunnerArgsLayout | expansion-packs/bmad-prp-integration/tools/prp-runner-adapter.js:95-112 | the runner path, `--prp-path` and the PRP path come first, then the mode's arguments; `--verbose` is there, and last, exactly when asked for |
| PrpRunner.StreamingIsHeadlessStreamJson | expansion-packs/bmad-prp-integration/tools/prp-runner-adapter.js:103-107 | streaming mode gives the same arguments as headless mode with `stream-json` |
| PrpRunner.UnknownModeAddsNothing | expansion-packs/bmad-prp-integration/tools/prp-runner-adapter.js:101-107 | any other mode gives only the path arguments and the verbose flag |
| PrpRunner.RunnerArgsInjective | expansion-packs/bmad-prp-integration/tools/prp-runner-adapter.js:95-112 | for a fixed runner, mode and format, the arguments determine the PRP path and the verbose flag |
| PrpRunner.GiveBack | expansion-packs/bmad-prp-integration/tools/prp-runner-adapter.js:241 | the backtracking of `\s*` before `(.+)`: the last position before `w` whose character `.` can match, if any |
| PrpRunner.CaptureAt | expansion-packs/bmad-prp-integration/tools/prp-runner-adapter.js:241 | the capture of `(.+)` is non-empty and holds no line terminator; `CaptureAtMatches` gives when it exists and where it starts |
| PrpRunner.CaptureAtMatches | expansion-packs/bmad-prp-integration/tools/prp-runner-adapter.js:241 | there is a capture exactly when `\s*` can be followed by a character that is not a line terminator; the capture then starts at the last such place and runs to the end of the line |
| PrpRunner.ParseTextOutput | expansion-packs/bmad-prp-integration/tools/prp-runner-adapter.js:230-255 | the loop sorts the lines of `output.split('\n')` exactly as `Sorted` does |
| PrpRunner.SortedIsGathered | expansion-packs/bmad-prp-integration/tools/prp-runner-adapter.js:239-252 | each bucket holds, in the order of the output, the trimmed lines (for files, the trimmed captures) that the chain routes to it; the buckets together have one entry per routed line, hence at most one per line |
| PrpRunner.RoutePriority | expansion-packs/bmad-prp-integration/tools/prp-runner-adapter.js:240-250 | a line is a test exactly when it names no file marker and has `test` and `passed`; an error exactly when, in addition, it is not a test and has `ERROR:` or `FAILED:`; a file only with a file marker |
| PrpRunner.CreatedLine | expansion-packs/bmad-prp-integration/tools/prp-runner-adapter.js:240-244 | `Created: path` records exactly the path |
| PrpRunner.MarkerThenBlanks | expansion-packs/bmad-prp-integration/tools/prp-runner-adapter.js:240-244 | a marker followed only by spaces records an empty file name, because `\s*` gives back one space to `(.+)` |

## Left out

- Reading and writing files (`fs.readFileSync`, `fs.writeFileSync`), the command-line `main` functions of both Markdown tools, `listMarkdownFiles`, the `DRY_RUN` flag and the exit codes are I/O and are not modelled. The models take the file's text as a string.
- The `filePath` field of the fixer's result is not carried, and the checker takes the text rather than the path: the path only names the file that was read.
- `JSON.parse` is not modelled; `detectLanguage` takes whether it succeeds as the `isJson` parameter.
- FenceFixer.Preview: cuts at 60 code points, where JavaScript's `slice` cuts at 60 UTF-16 code units; the two differ only for characters outside the Basic Multilingual Plane.
- White space is the fixed character set listed above (ECMAScript's WhiteSpace and LineTerminator code points for the current Unicode space separators); a later change of Unicode's space-separator category is not followed.
- PrpRunner.BuildRunnerCommand: `verbose` is a boolean, where the source accepts any truthy value; an `outputFormat` of `undefined` is not modelled, since strings here are always defined; `this.config.runnerPath` and the adapter's constructor defaults are the `runnerPath` parameter.
- The rest of `prp-runner-adapter.js` (`executePRP`, `validatePRPFile`, `runPRPCommand`, `processResults`, `collectArtifacts`, `findFiles`, `filterRecentFiles`, `getRunnerVersion`, `validateEnvironment`) runs child processes, timers, the file system and asynchronous I/O, and is not part of this model.
- The other files of the repository (the VCS detection example and its tests, the PRP converter test, the module installer) are not part of this model: they depend on subprocesses, user input, clocks and console output.
