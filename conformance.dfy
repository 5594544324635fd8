/** The Markdown conformance checker (tools/markdown/check-md-conformance.js):
    the line predicates and `checkFile`, which marks the lines inside code
    fences and then reports fence, list and table violations, in that order. */
module MdConformance {
  import opened Text

  datatype Kind =
    | FenceBlankBefore | FenceBlankAfter | FenceLanguageMissing
    | ListBlankBefore | ListBlankAfter | BulletMarker
    | TableBlankBefore | TableBlankAfter

  /** One report: its kind, the 1-based line it is attributed to, and its message. */
  datatype Violation = Violation(kind: Kind, line: int, message: string)

  const FenceBlankAfterMessage := "Missing blank line after code fence"
  const FenceLanguageMessage := "Code fence missing language identifier (e.g., ```bash)"
  const FenceBlankBeforeMessage := "Missing blank line before code fence"
  const ListBlankBeforeMessage := "Missing blank line before list"
  const ListBlankAfterMessage := "Missing blank line after list"
  const TableBlankBeforeMessage := "Missing blank line before table"
  const TableBlankAfterMessage := "Missing blank line after table"

  function BulletMessage(marker: char): string {
    "Use '-' for bullets, found '" + [marker] + "'"
  }

  // ---------------------------------------------------------------------
  // Line predicates. Each regular expression is written out on the text
  // left after its leading `\s*`, which never gives back a character to
  // what follows it, since every later token starts with a non-space.

  predicate IsBulletChar(c: char) { c == '-' || c == '*' || c == '+' }

  /** `/^\s*([-*+])\s+/` */
  predicate IsBulletLine(line: string) {
    var t := TrimStart(line);
    |t| >= 2 && IsBulletChar(t[0]) && IsSpace(t[1])
  }

  /** The length of the run of ASCII digits that `s` starts with. */
  function DigitRun(s: string): (n: nat)
    ensures n <= |s|
    ensures forall i :: 0 <= i < n ==> IsDigit(s[i])
    ensures n < |s| ==> !IsDigit(s[n])
  {
    if s != [] && IsDigit(s[0]) then 1 + DigitRun(s[1..]) else 0
  }

  /** `/^\s*\d+\.\s+/` */
  predicate IsOrderedLine(line: string) {
    var t := TrimStart(line);
    var d := DigitRun(t);
    1 <= d && d + 1 < |t| && t[d] == '.' && IsSpace(t[d + 1])
  }

  predicate IsListLine(line: string) {
    IsBulletLine(line) || IsOrderedLine(line)
  }

  /** `bulletMarker`: group 1 of `/^\s*([-*+])\s+/`, or null. */
  function BulletMarkerOf(line: string): (m: Option<char>)
    ensures m.Some? <==> IsBulletLine(line)
    ensures m.Some? ==> IsBulletChar(m.value) && IsListLine(line)
  {
    var t := TrimStart(line);
    if |t| >= 2 && IsBulletChar(t[0]) && IsSpace(t[1]) then Some(t[0]) else None
  }

  /** `/^\s*\|\s*$/`: white space around a single pipe. */
  predicate IsLonePipeLine(line: string) {
    var t := TrimStart(line);
    t != [] && t[0] == '|' && AllSpace(t[1..])
  }

  /** Three backticks. */
  predicate TicksAhead(t: string) {
    |t| >= 3 && t[0] == '`' && t[1] == '`' && t[2] == '`'
  }

  /** `/^\s*```/` */
  predicate IsFenceStart(line: string) {
    TicksAhead(TrimStart(line))
  }

  /** `isTableLine`: a pipe somewhere, not a fence, not a lone pipe. The source
      asks whether the fully trimmed line starts with three backticks; since
      trimming the end cannot reach a backtick that starts the line, that is
      the fence test (see `TableLineAsWritten`). */
  predicate IsTableLine(line: string) {
    !IsFenceStart(line) && '|' in line && !IsLonePipeLine(line)
  }

  /** `[a-zA-Z0-9_+-]` */
  predicate IsLanguageChar(c: char) {
    IsAsciiLetter(c) || IsDigit(c) || c == '_' || c == '+' || c == '-'
  }

  /** The longest prefix of `s` made of language characters. */
  function LanguageRun(s: string): (r: string)
    ensures StartsWith(s, r)
    ensures forall i :: 0 <= i < |r| ==> IsLanguageChar(r[i])
    ensures |r| < |s| ==> !IsLanguageChar(s[|r|])
  {
    if s != [] && IsLanguageChar(s[0]) then [s[0]] + LanguageRun(s[1..]) else []
  }

  /** `fenceLanguage`: group 1 of `/^\s*```\s*([a-zA-Z0-9_+-]+)?/`, or "".
      After the backticks and the white space that follows them, the group
      takes the longest run of language characters, and may take none. */
  function FenceLanguage(line: string): (lang: string)
    ensures !IsFenceStart(line) ==> lang == []
    ensures forall i :: 0 <= i < |lang| ==> IsLanguageChar(lang[i])
    ensures IsFenceStart(line) ==>
      var u := TrimStart(TrimStart(line)[3..]);
      StartsWith(u, lang) && (|lang| < |u| ==> !IsLanguageChar(u[|lang|]))
  {
    var t := TrimStart(line);
    if TicksAhead(t) then LanguageRun(TrimStart(t[3..])) else []
  }

  /** `/^\s*$/` */
  predicate IsBlank(line: string) {
    AllSpace(line)
  }

  /** A fence line is never a list line nor a table line. */
  lemma FenceLineIsNotListOrTable(line: string)
    requires IsFenceStart(line)
    ensures !IsListLine(line) && !IsTableLine(line)
  {
  }

  /** `isTableLine` as the source writes it, on the trimmed line. */
  lemma TableLineAsWritten(line: string)
    ensures IsTableLine(line)
        <==> !StartsWith(Trim(line), "```") && '|' in line && !IsLonePipeLine(line)
  {
    var t := TrimStart(line);
    TrimAfterTrimStart(line);
    TrimEndIsPrefix(t);
    var r := TrimEnd(t);
    assert Trim(line) == r;
    if TicksAhead(t) {
      TrimEndKeeps(t, 2);
      assert r[..3] == t[..3] == "```";
    }
  }

  // ---------------------------------------------------------------------
  // Pass 1: which lines the list and table passes skip.

  /** The number of fence lines among the first `i` lines. */
  function FenceStartsBefore(lines: seq<string>, i: nat): nat
    requires i <= |lines|
  {
    if i == 0 then 0
    else FenceStartsBefore(lines, i - 1) + (if IsFenceStart(lines[i - 1]) then 1 else 0)
  }

  /** The value of `inFence` before line `i`: every fence line flips it. */
  predicate InsideFence(lines: seq<string>, i: nat)
    requires i <= |lines|
  {
    if i == 0 then false
    else if IsFenceStart(lines[i - 1]) then !InsideFence(lines, i - 1)
    else InsideFence(lines, i - 1)
  }

  /** Line `i` is inside a fence exactly when an odd number of fence lines
      come before it. */
  lemma {:induction false} InsideFenceIsOddCount(lines: seq<string>, i: nat)
    requires i <= |lines|
    ensures InsideFence(lines, i) <==> FenceStartsBefore(lines, i) % 2 == 1
  {
    if i > 0 {
      InsideFenceIsOddCount(lines, i - 1);
    }
  }

  /** Line `i` is a fence line or lies between an opening and a closing one. */
  predicate Excluded(lines: seq<string>, i: nat)
    requires i < |lines|
  {
    IsFenceStart(lines[i]) || InsideFence(lines, i)
  }

  /** The `excluded` array that pass 1 fills, as a value. */
  function ExcludedMask(lines: seq<string>): (mask: seq<bool>)
    ensures |mask| == |lines|
    ensures forall i :: 0 <= i < |lines| ==> mask[i] == Excluded(lines, i)
  {
    seq(|lines|, i requires 0 <= i < |lines| => Excluded(lines, i))
  }

  /** check-md-conformance.js:82-98: fills `excluded` by toggling `inFence`. */
  method MarkExcluded(lines: seq<string>) returns (excluded: array<bool>)
    ensures fresh(excluded)
    ensures excluded.Length == |lines|
    ensures forall i :: 0 <= i < |lines| ==> excluded[i] == Excluded(lines, i)
    ensures excluded[..] == ExcludedMask(lines)
  {
    excluded := new bool[|lines|](_ => false);
    var inFence := false;
    for i := 0 to |lines|
      invariant inFence == InsideFence(lines, i)
      invariant forall j :: 0 <= j < i ==> excluded[j] == Excluded(lines, j)
      invariant forall j :: i <= j < |lines| ==> !excluded[j]
    {
      if IsFenceStart(lines[i]) {
        inFence := !inFence;
        excluded[i] := true;
        continue;
      }
      if inFence {
        excluded[i] := true;
      }
    }
  }

  /** The first line of every excluded region is a fence line: the line before
      an excluded line that is not a fence line is excluded as well. */
  lemma {:induction false} ExcludedRegionStartsAtFence(lines: seq<string>, i: nat)
    requires i < |lines| && Excluded(lines, i) && !IsFenceStart(lines[i])
    ensures i > 0 && Excluded(lines, i - 1)
  {
  }

  /** What the three passes rely on about `excluded`: one flag per line, every
      fence line flagged, and no flagged run starting at a line that is not a
      fence line. */
  predicate WellMasked(lines: seq<string>, mask: seq<bool>) {
    |mask| == |lines|
    && (forall i {:trigger IsFenceStart(lines[i])} :: 0 <= i < |lines| && IsFenceStart(lines[i]) ==> mask[i])
    && (forall i {:trigger IsFenceStart(lines[i])} :: 0 < i < |lines| && mask[i] && !mask[i - 1] ==> IsFenceStart(lines[i]))
  }

  lemma {:induction false} ExcludedMaskWellMasked(lines: seq<string>)
    ensures WellMasked(lines, ExcludedMask(lines))
  {
    var mask := ExcludedMask(lines);
    forall i | 0 < i < |lines| && mask[i] && !mask[i - 1]
      ensures IsFenceStart(lines[i])
    {
      if !IsFenceStart(lines[i]) {
        ExcludedRegionStartsAtFence(lines, i);
      }
    }
  }

  // ---------------------------------------------------------------------
  // Reports, line by line. A pass's output is the concatenation, in line
  // order, of what it reports at each line.

  lemma AppendAssoc3(a: seq<Violation>, b: seq<Violation>, c: seq<Violation>)
    ensures a + (b + c) == a + b + c
  {
  }

  lemma AppendAssoc(a: seq<Violation>, b: seq<Violation>, c: seq<Violation>, d: seq<Violation>)
    ensures a + b + c + d == a + (b + c + d)
  {
  }

  /** The reports of the first `k` lines, in line order. */
  function Gather(reports: seq<seq<Violation>>, k: nat): seq<Violation>
    requires k <= |reports|
  {
    if k == 0 then [] else Gather(reports, k - 1) + reports[k - 1]
  }

  /** Every report listed at index `j` names line `j + 1`. */
  predicate Attributed(reports: seq<seq<Violation>>) {
    forall j :: 0 <= j < |reports| ==> forall x :: x in reports[j] ==> x.line == j + 1
  }

  predicate Sorted(vs: seq<Violation>) {
    forall a, b :: 0 <= a < b < |vs| ==> vs[a].line <= vs[b].line
  }

  lemma {:induction false} GatherLines(reports: seq<seq<Violation>>, k: nat)
    requires Attributed(reports) && k <= |reports|
    ensures forall x :: x in Gather(reports, k) ==> 1 <= x.line <= k
  {
    if k > 0 {
      GatherLines(reports, k - 1);
    }
  }

  /** Gathered attributed reports are in non-decreasing line order. */
  lemma {:induction false} GatherSorted(reports: seq<seq<Violation>>, k: nat)
    requires Attributed(reports) && k <= |reports|
    ensures Sorted(Gather(reports, k))
  {
    if k > 0 {
      GatherSorted(reports, k - 1);
      GatherLines(reports, k - 1);
      var left := Gather(reports, k - 1);
      var last := reports[k - 1];
      var f := Gather(reports, k);
      forall a, b | 0 <= a < b < |f| ensures f[a].line <= f[b].line {
        if b < |left| {
          assert f[a] == left[a] && f[b] == left[b];
        } else if a >= |left| {
          assert f[a] == last[a - |left|] && f[b] == last[b - |left|];
          assert f[a] in last && f[b] in last;
        } else {
          assert f[a] == left[a] && f[b] == last[b - |left|];
          assert f[a] in left && f[b] in last;
        }
      }
    }
  }

  /** Among gathered attributed reports, a report occurs exactly as often as
      among the reports of its own line. */
  lemma {:induction false} GatherCount(reports: seq<seq<Violation>>, k: nat, x: Violation)
    requires Attributed(reports) && k <= |reports| && 1 <= x.line <= k
    ensures multiset(Gather(reports, k))[x] == multiset(reports[x.line - 1])[x]
  {
    assert multiset(Gather(reports, k)) == multiset(Gather(reports, k - 1)) + multiset(reports[k - 1]);
    if x.line == k {
      GatherLines(reports, k - 1);
      assert x !in Gather(reports, k - 1);
    } else {
      assert x !in reports[k - 1];
      GatherCount(reports, k - 1, x);
    }
  }

  lemma {:induction false} GatherMember(reports: seq<seq<Violation>>, k: nat, x: Violation)
    requires Attributed(reports) && k <= |reports| && 1 <= x.line <= k
    ensures x in Gather(reports, k) <==> x in reports[x.line - 1]
  {
    GatherCount(reports, k, x);
  }

  /** No report at any line: nothing at all. */
  lemma {:induction false} GatherSilent(reports: seq<seq<Violation>>, k: nat)
    requires k <= |reports|
    requires forall j :: 0 <= j < k ==> reports[j] == []
    ensures Gather(reports, k) == []
  {
    if k > 0 {
      GatherSilent(reports, k - 1);
    }
  }

  /** The reports of lines `a` to `b - 1`, in line order. */
  function Span(reports: seq<seq<Violation>>, a: nat, b: nat): seq<Violation>
    requires a <= b <= |reports|
    decreases b - a
  {
    if a == b then [] else Span(reports, a, b - 1) + reports[b - 1]
  }

  lemma {:induction false} SpanSplit(reports: seq<seq<Violation>>, a: nat, b: nat)
    requires a < b <= |reports|
    ensures Span(reports, a, b) == reports[a] + Span(reports, a + 1, b)
    decreases b - a
  {
    if a + 1 < b {
      SpanSplit(reports, a, b - 1);
      AppendAssoc3(reports[a], Span(reports, a + 1, b - 1), reports[b - 1]);
    }
  }

  /** A block of lines `s` to `e - 1` whose first line carries `head`, whose
      last line carries `tail`, and each of whose lines `j` carries
      `middle[j]` in between: gathered up to line `k` inside the block. */
  lemma {:induction false} GatherBlock(reports: seq<seq<Violation>>, middle: seq<seq<Violation>>,
                                       s: nat, k: nat, e: nat, head: seq<Violation>, tail: seq<Violation>)
    requires s < k <= e <= |reports| && |middle| == |reports|
    requires forall j {:trigger reports[j]} :: s <= j < e ==>
      reports[j] == (if j == s then head else []) + middle[j] + (if j + 1 == e then tail else [])
    ensures Gather(reports, k)
         == Gather(reports, s) + head + Span(middle, s, k) + (if k == e then tail else [])
    decreases k - s
  {
    var t := if k == e then tail else [];
    var g := Gather(reports, s);
    var x := middle[k - 1];
    assert Gather(reports, k) == Gather(reports, k - 1) + reports[k - 1];
    if k == s + 1 {
      assert reports[s] == head + x + t;
      assert Span(middle, s, k) == [] + x;
      assert [] + x == x;
      AppendAssoc(g, head, x, t);
    } else {
      GatherBlock(reports, middle, s, k - 1, e, head, tail);
      var p := g + head;
      var m := Span(middle, s, k - 1);
      assert Gather(reports, k - 1) == p + m + [];
      assert p + m + [] == p + m;
      assert reports[k - 1] == [] + x + t;
      assert [] + x + t == x + t;
      assert Span(middle, s, k) == m + x;
      AppendShift(p, m, x, t);
    }
  }

  lemma AppendShift(p: seq<Violation>, m: seq<Violation>, x: seq<Violation>, t: seq<Violation>)
    ensures p + m + (x + t) == p + (m + x) + t
  {
  }

  // ---------------------------------------------------------------------
  // Pass 2a: code fences (check-md-conformance.js:101-144).

  /** What the fence pass reports at line `i`: an opening fence (the 1st, 3rd,
      ... fence line) may lack a language or a blank line before it; a closing
      one may lack a blank line after it. */
  function FenceReportsAt(lines: seq<string>, i: nat): seq<Violation>
    requires i < |lines|
  {
    if !IsFenceStart(lines[i]) then []
    else if InsideFence(lines, i) then
      if i + 1 < |lines| && !IsBlank(lines[i + 1])
      then [Violation(FenceBlankAfter, i + 1, FenceBlankAfterMessage)]
      else []
    else
      (if FenceLanguage(lines[i]) == [] then [Violation(FenceLanguageMissing, i + 1, FenceLanguageMessage)] else [])
      + (if i > 0 && !IsBlank(lines[i - 1]) then [Violation(FenceBlankBefore, i + 1, FenceBlankBeforeMessage)] else [])
  }

  function FenceReportsUpTo(lines: seq<string>, k: nat): (reports: seq<seq<Violation>>)
    requires k <= |lines|
    ensures |reports| == k
  {
    if k == 0 then [] else FenceReportsUpTo(lines, k - 1) + [FenceReportsAt(lines, k - 1)]
  }

  lemma {:induction false} FenceReportsUpToAt(lines: seq<string>, k: nat, j: nat)
    requires j < k <= |lines|
    ensures FenceReportsUpTo(lines, k)[j] == FenceReportsAt(lines, j)
  {
    var r := FenceReportsUpTo(lines, k - 1);
    var x := FenceReportsAt(lines, k - 1);
    assert FenceReportsUpTo(lines, k) == r + [x];
    if j < k - 1 {
      FenceReportsUpToAt(lines, k - 1, j);
      assert (r + [x])[j] == r[j];
    }
  }

  function FenceReports(lines: seq<string>): (reports: seq<seq<Violation>>)
    ensures |reports| == |lines|
  {
    FenceReportsUpTo(lines, |lines|)
  }

  /** The entry of `FenceReports` for line `j` is what is reported there. */
  lemma {:induction false} FenceReportsAtLine(lines: seq<string>, j: nat)
    requires j < |lines|
    ensures FenceReports(lines)[j] == FenceReportsAt(lines, j)
  {
    FenceReportsUpToAt(lines, |lines|, j);
  }

  /** The fence reports, line by line. */
  function FenceViolations(lines: seq<string>): seq<Violation> {
    Gather(FenceReports(lines), |lines|)
  }

  method FencePass(lines: seq<string>, excluded: array<bool>) returns (violations: seq<Violation>)
    requires excluded.Length == |lines|
    requires forall i {:trigger IsFenceStart(lines[i])} :: 0 <= i < |lines| && IsFenceStart(lines[i]) ==> excluded[i]
    ensures violations == FenceViolations(lines)
  {
    ghost var reports := FenceReports(lines);
    violations := [];
    var inFence := false;
    for i := 0 to |lines|
      invariant inFence == InsideFence(lines, i)
      invariant violations == Gather(reports, i)
    {
      FenceReportsAtLine(lines, i);
      ghost var before := violations;
      assert Gather(reports, i + 1) == before + FenceReportsAt(lines, i);
      if excluded[i] {
        if IsFenceStart(lines[i]) {
          if inFence {
            // closing
            inFence := false;
            var next := i + 1;
            if next < |lines| && !IsBlank(lines[next]) {
              violations := violations + [Violation(FenceBlankAfter, i + 1, FenceBlankAfterMessage)];
            }
          } else {
            // opening
            inFence := true;
            var lang := FenceLanguage(lines[i]);
            if lang == [] {
              violations := violations + [Violation(FenceLanguageMissing, i + 1, FenceLanguageMessage)];
            }
            ghost var withLanguage := violations;
            var prev := i - 1;
            if prev >= 0 && !IsBlank(lines[prev]) {
              violations := violations + [Violation(FenceBlankBefore, i + 1, FenceBlankBeforeMessage)];
            }
            AppendAssoc3(before, if lang == [] then [Violation(FenceLanguageMissing, i + 1, FenceLanguageMessage)] else [],
                         if prev >= 0 && !IsBlank(lines[prev]) then [Violation(FenceBlankBefore, i + 1, FenceBlankBeforeMessage)] else []);
          }
        }
        continue;
      }
      assert !IsFenceStart(lines[i]);
    }
  }

  // ---------------------------------------------------------------------
  // The bullet check of the list pass.

  /** The bullet check at line `j`: a bullet whose marker is not `-`. */
  function BulletReport(lines: seq<string>, j: nat): seq<Violation>
    requires j < |lines|
  {
    if IsBulletLine(lines[j]) then
      var marker := BulletMarkerOf(lines[j]);
      if marker.Some? && marker.value != '-'
      then [Violation(BulletMarker, j + 1, BulletMessage(marker.value))]
      else []
    else []
  }

  // ---------------------------------------------------------------------
  // Blocks. The list pass and the table pass both look for maximal runs of
  // consecutive candidate lines and report a missing blank line just before
  // and just after each run. The list pass also reports each line's bullet
  // check inside a run, and at a run's first line that check a second time.

  /** A block pass over `|cand|` lines: which lines are candidates, which are
      blank, what the pass checks at each line of a run, and what it reports
      before and after a run. */
  datatype Blocks = Blocks(cand: seq<bool>, blank: seq<bool>, checks: seq<seq<Violation>>,
                           before: Kind, beforeMessage: string, after: Kind, afterMessage: string)
  {
    predicate Valid() {
      |blank| == |cand| && |checks| == |cand|
    }
  }

  /** The first line from `i` on that is not a candidate. */
  function RunEnd(b: Blocks, i: nat): (e: nat)
    requires i <= |b.cand|
    ensures i <= e <= |b.cand|
    decreases |b.cand| - i
  {
    if i < |b.cand| && b.cand[i] then RunEnd(b, i + 1) else i
  }

  predicate RunStart(b: Blocks, j: nat)
    requires j < |b.cand|
  {
    b.cand[j] && (j == 0 || !b.cand[j - 1])
  }

  predicate RunLast(b: Blocks, j: nat)
    requires j < |b.cand|
  {
    b.cand[j] && (j + 1 == |b.cand| || !b.cand[j + 1])
  }

  /** The report for a run starting at line `j`: the line before is not blank. */
  function BeforeReport(b: Blocks, j: nat): seq<Violation>
    requires b.Valid() && j < |b.cand|
  {
    if j > 0 && !b.blank[j - 1] then [Violation(b.before, j + 1, b.beforeMessage)] else []
  }

  /** The report for a run ending at line `j`: the line after is not blank. */
  function AfterReport(b: Blocks, j: nat): seq<Violation>
    requires b.Valid() && j < |b.cand|
  {
    if j + 1 < |b.cand| && !b.blank[j + 1] then [Violation(b.after, j + 1, b.afterMessage)] else []
  }

  /** What a line reports ahead of its own check: at a run's first line, the
      report before the run and the line's check a first time. */
  function Head(b: Blocks, j: nat): seq<Violation>
    requires b.Valid() && j < |b.cand|
  {
    if RunStart(b, j) then BeforeReport(b, j) + b.checks[j] else []
  }

  /** What a line reports after its own check: at a run's last line, the
      report after the run. */
  function Tail(b: Blocks, j: nat): seq<Violation>
    requires b.Valid() && j < |b.cand|
  {
    if RunLast(b, j) then AfterReport(b, j) else []
  }

  /** The reports attributed to line `j`. */
  function ReportsAt(b: Blocks, j: nat): seq<Violation>
    requires b.Valid() && j < |b.cand|
  {
    if b.cand[j] then Head(b, j) + b.checks[j] + Tail(b, j) else []
  }

  function ReportsUpTo(b: Blocks, k: nat): (reports: seq<seq<Violation>>)
    requires b.Valid() && k <= |b.cand|
    ensures |reports| == k
  {
    if k == 0 then [] else ReportsUpTo(b, k - 1) + [ReportsAt(b, k - 1)]
  }

  lemma {:induction false} ReportsUpToAt(b: Blocks, k: nat, j: nat)
    requires b.Valid() && j < k <= |b.cand|
    ensures ReportsUpTo(b, k)[j] == ReportsAt(b, j)
  {
    var r := ReportsUpTo(b, k - 1);
    var x := ReportsAt(b, k - 1);
    assert ReportsUpTo(b, k) == r + [x];
    if j < k - 1 {
      ReportsUpToAt(b, k - 1, j);
      assert (r + [x])[j] == r[j];
    }
  }

  function Reports(b: Blocks): (reports: seq<seq<Violation>>)
    requires b.Valid()
    ensures |reports| == |b.cand|
  {
    ReportsUpTo(b, |b.cand|)
  }

  /** The entry of `Reports` for line `j` is what is reported there. */
  lemma {:induction false} ReportsAtLine(b: Blocks, j: nat)
    requires b.Valid() && j < |b.cand|
    ensures Reports(b)[j] == ReportsAt(b, j)
  {
    ReportsUpToAt(b, |b.cand|, j);
  }

  /** The reports of a block pass, line by line: the reference a pass is
      checked against. */
  function ByLine(b: Blocks): seq<Violation>
    requires b.Valid()
  {
    Gather(Reports(b), |b.cand|)
  }

  // A block pass as its loops run, run by run from line `i`, adding to what
  // it has reported so far.

  /** The inner loop from `a` to `c`, adding each line's check to `acc`. */
  function ChecksFrom(b: Blocks, a: nat, c: nat, acc: seq<Violation>): seq<Violation>
    requires a <= c <= |b.checks|
    decreases c - a
  {
    if a == c then acc else ChecksFrom(b, a + 1, c, acc + b.checks[a])
  }

  /** One run, starting at line `i`, added to `acc`. */
  function ScanRun(b: Blocks, i: nat, acc: seq<Violation>): seq<Violation>
    requires b.Valid() && i < |b.cand|
  {
    var e := RunEnd(b, i + 1);
    var withBefore := if i > 0 && !b.blank[i - 1] then acc + [Violation(b.before, i + 1, b.beforeMessage)] else acc;
    var withChecks := ChecksFrom(b, i, e, withBefore + b.checks[i]);
    if e < |b.cand| && !b.blank[e] then withChecks + [Violation(b.after, e, b.afterMessage)] else withChecks
  }

  /** The outer loop from line `i` on, added to `acc`. */
  function Scan(b: Blocks, i: nat, acc: seq<Violation>): seq<Violation>
    requires b.Valid() && i <= |b.cand|
    decreases |b.cand| - i
  {
    if i == |b.cand| then acc
    else if !b.cand[i] then Scan(b, i + 1, acc)
    else Scan(b, RunEnd(b, i + 1), ScanRun(b, i, acc))
  }

  /** Inside a run every line is a candidate, and the run ends where it ends
      seen from any of its lines. */
  lemma {:induction false} RunFacts(b: Blocks, s: nat, k: nat)
    requires s <= k && s <= |b.cand| && k < RunEnd(b, s)
    ensures b.cand[k]
    ensures RunEnd(b, k) == RunEnd(b, s)
    decreases k - s
  {
    if k > s {
      RunFacts(b, s, k - 1);
    }
  }

  /** A run stops at the end of the text or at a line that is no candidate. */
  lemma {:induction false} RunStops(b: Blocks, i: nat)
    requires i <= |b.cand|
    ensures RunEnd(b, i) == |b.cand| || !b.cand[RunEnd(b, i)]
    decreases |b.cand| - i
  {
    if i < |b.cand| && b.cand[i] {
      RunStops(b, i + 1);
    }
  }

  /** Within a run starting at `s`, only its first line carries the head and
      only its last line the tail. */
  lemma {:induction false} ReportsInRun(b: Blocks, s: nat, j: nat)
    requires b.Valid() && s < |b.cand| && RunStart(b, s)
    requires s <= j < RunEnd(b, s)
    ensures Reports(b)[j]
         == (if j == s then Head(b, s) else []) + b.checks[j]
            + (if j + 1 == RunEnd(b, s) then Tail(b, RunEnd(b, s) - 1) else [])
  {
    var e := RunEnd(b, s);
    ReportsAtLine(b, j);
    RunFacts(b, s, j);
    if j > s {
      RunFacts(b, s, j - 1);
      assert Head(b, j) == [];
    }
    if j + 1 < e {
      RunFacts(b, s, j + 1);
      assert Tail(b, j) == [];
    } else {
      RunStops(b, s);
    }
    assert Head(b, j) == (if j == s then Head(b, s) else []);
    assert Tail(b, j) == (if j + 1 == e then Tail(b, e - 1) else []);
  }

  /** A run starting at `s`, gathered line by line: its head, the checks of
      its lines and its tail. */
  lemma {:induction false} RunGather(b: Blocks, s: nat)
    requires b.Valid() && s < |b.cand| && RunStart(b, s)
    ensures s < RunEnd(b, s)
    ensures Gather(Reports(b), RunEnd(b, s))
         == Gather(Reports(b), s) + Head(b, s) + Span(b.checks, s, RunEnd(b, s)) + Tail(b, RunEnd(b, s) - 1)
  {
    var e := RunEnd(b, s);
    assert e == RunEnd(b, s + 1);
    forall j | s <= j < e
      ensures Reports(b)[j] == (if j == s then Head(b, s) else []) + b.checks[j]
                               + (if j + 1 == e then Tail(b, e - 1) else [])
    {
      ReportsInRun(b, s, j);
    }
    GatherBlock(Reports(b), b.checks, s, e, e, Head(b, s), Tail(b, e - 1));
  }

  lemma {:induction false} ChecksFromIs(b: Blocks, a: nat, c: nat, acc: seq<Violation>)
    requires a <= c <= |b.checks|
    ensures ChecksFrom(b, a, c, acc) == acc + Span(b.checks, a, c)
    decreases c - a
  {
    if a < c {
      ChecksFromIs(b, a + 1, c, acc + b.checks[a]);
      SpanSplit(b.checks, a, c);
      AppendAssoc3(acc, b.checks[a], Span(b.checks, a + 1, c));
    }
  }

  /** Where no line has a check, the inner loop adds nothing. */
  lemma {:induction false} ChecksFromNothing(b: Blocks, a: nat, c: nat, acc: seq<Violation>)
    requires a <= c <= |b.checks|
    requires forall j :: a <= j < c ==> b.checks[j] == []
    ensures ChecksFrom(b, a, c, acc) == acc
    decreases c - a
  {
    if a < c {
      assert acc + b.checks[a] == acc;
      ChecksFromNothing(b, a + 1, c, acc);
    }
  }

  /** One run of the scan: from the per-line reports of the lines before it,
      it reaches those of the lines up to its end. */
  lemma {:induction false} ScanRunGather(b: Blocks, i: nat, acc: seq<Violation>)
    requires b.Valid() && i < |b.cand| && RunStart(b, i)
    requires acc == Gather(Reports(b), i)
    ensures ScanRun(b, i, acc) == Gather(Reports(b), RunEnd(b, i + 1))
    ensures RunEnd(b, i + 1) == |b.cand| || !b.cand[RunEnd(b, i + 1)]
  {
    var e := RunEnd(b, i + 1);
    assert RunEnd(b, i) == e;
    RunGather(b, i);
    RunFacts(b, i, e - 1);
    RunStops(b, i);
    var withBefore := if i > 0 && !b.blank[i - 1] then acc + [Violation(b.before, i + 1, b.beforeMessage)] else acc;
    assert withBefore == acc + BeforeReport(b, i);
    ChecksFromIs(b, i, e, withBefore + b.checks[i]);
    assert Head(b, i) == BeforeReport(b, i) + b.checks[i];
    assert Tail(b, e - 1) == AfterReport(b, e - 1);
    AppendAssoc3(acc, BeforeReport(b, i), b.checks[i]);
  }

  /** From a line that is not inside a run, with the per-line reports of the
      lines before it reported so far, the scan ends with all of them. */
  lemma {:induction false} ScanGather(b: Blocks, i: nat, acc: seq<Violation>)
    requires b.Valid() && i <= |b.cand|
    requires i == 0 || i == |b.cand| || !b.cand[i - 1] || !b.cand[i]
    requires acc == Gather(Reports(b), i)
    ensures Scan(b, i, acc) == ByLine(b)
    decreases |b.cand| - i
  {
    if i < |b.cand| {
      if !b.cand[i] {
        ReportsAtLine(b, i);
        ScanGather(b, i + 1, acc);
      } else {
        ScanRunGather(b, i, acc);
        ScanGather(b, RunEnd(b, i + 1), ScanRun(b, i, acc));
      }
    }
  }

  /** The scan, run by run, reports what `ByLine` says, line by line. */
  lemma {:induction false} ScanIsByLine(b: Blocks)
    requires b.Valid()
    ensures Scan(b, 0, []) == ByLine(b)
  {
    ScanGather(b, 0, []);
  }

  // ---------------------------------------------------------------------
  // Pass 2b: lists (check-md-conformance.js:146-196). A list block is a
  // maximal run of consecutive unflagged list lines.

  function Blanks(lines: seq<string>): (blank: seq<bool>)
    ensures |blank| == |lines|
    ensures forall j {:trigger blank[j]} :: 0 <= j < |lines| ==> blank[j] == IsBlank(lines[j])
  {
    seq(|lines|, j requires 0 <= j < |lines| => IsBlank(lines[j]))
  }

  function ListCands(lines: seq<string>, mask: seq<bool>): (cand: seq<bool>)
    requires |mask| == |lines|
    ensures |cand| == |lines|
    ensures forall j {:trigger cand[j]} :: 0 <= j < |lines| ==> cand[j] == (!mask[j] && IsListLine(lines[j]))
  {
    seq(|lines|, j requires 0 <= j < |lines| => !mask[j] && IsListLine(lines[j]))
  }

  /** The bullet check the list pass makes at each line inside a block. */
  function BulletChecks(lines: seq<string>, mask: seq<bool>): (checks: seq<seq<Violation>>)
    requires |mask| == |lines|
    ensures |checks| == |lines|
    ensures forall j {:trigger checks[j]} :: 0 <= j < |lines| ==> checks[j] == if mask[j] then [] else BulletReport(lines, j)
  {
    seq(|lines|, j requires 0 <= j < |lines| => if mask[j] then [] else BulletReport(lines, j))
  }

  /** The list pass over `lines` with flags `mask`, as a block pass. */
  function ListBlocks(lines: seq<string>, mask: seq<bool>): (b: Blocks)
    requires |mask| == |lines|
    ensures b.Valid() && |b.cand| == |lines|
  {
    Blocks(ListCands(lines, mask), Blanks(lines), BulletChecks(lines, mask),
           ListBlankBefore, ListBlankBeforeMessage, ListBlankAfter, ListBlankAfterMessage)
  }

  /** What the list pass learns about each line, as `b` tells it: each fact
      is stated for the lines where the pass evaluates it. */
  ghost predicate ListSeen(lines: seq<string>, mask: seq<bool>, b: Blocks) {
    b.Valid() && |b.cand| == |lines| && |mask| == |lines|
    && b.before == ListBlankBefore && b.beforeMessage == ListBlankBeforeMessage
    && b.after == ListBlankAfter && b.afterMessage == ListBlankAfterMessage
    && (forall j :: 0 <= j < |lines| && mask[j] ==> !b.cand[j] && b.checks[j] == [])
    && (forall j {:trigger IsListLine(lines[j])} :: 0 <= j < |lines| ==> b.cand[j] == (!mask[j] && IsListLine(lines[j])))
    && (forall j {:trigger IsBlank(lines[j])} :: 0 <= j < |lines| ==> b.blank[j] == IsBlank(lines[j]))
    && (forall j {:trigger BulletReport(lines, j)} :: 0 <= j < |lines| && !mask[j] ==> b.checks[j] == BulletReport(lines, j))
  }

  lemma {:induction false} ListSeenOf(lines: seq<string>, mask: seq<bool>) returns (b: Blocks)
    requires |mask| == |lines|
    ensures ListSeen(lines, mask, b)
  {
    b := ListBlocks(lines, mask);
  }

  /** Whatever agrees with what the list pass learns is its block pass. */
  lemma {:induction false} ListSeenIsBlocks(lines: seq<string>, mask: seq<bool>, b: Blocks)
    requires ListSeen(lines, mask, b)
    ensures b == ListBlocks(lines, mask)
  {
    var l := ListBlocks(lines, mask);
    assert b.cand == l.cand;
    assert b.blank == l.blank;
    assert forall j :: 0 <= j < |lines| ==> b.checks[j] == l.checks[j];
    assert b.checks == l.checks;
  }

  /** The inner loop of the list pass runs while lines are list lines,
      whatever their flags; it still stops where the block ends, since a run
      of flagged lines that follows an unflagged line starts at a fence. */
  lemma {:induction false} ListRunStops(lines: seq<string>, mask: seq<bool>, b: Blocks, s: nat)
    requires WellMasked(lines, mask) && ListSeen(lines, mask, b) && s < |lines| && b.cand[s]
    ensures RunEnd(b, s) == |lines| || !IsListLine(lines[RunEnd(b, s)])
  {
    var e := RunEnd(b, s);
    RunStops(b, s);
    assert e == RunEnd(b, s + 1);
    RunFacts(b, s, e - 1);
    if e < |lines| && IsListLine(lines[e]) {
      assert !b.cand[e] && b.cand[e - 1];
      assert mask[e] && !mask[e - 1];
      FenceLineIsNotListOrTable(lines[e]);
    }
  }

  /** The bullet checks of a list block's lines from `end` on: the inner
      loop of the list pass (check-md-conformance.js:174-183). */
  method ListChecks(lines: seq<string>, excluded: array<bool>, ghost b: Blocks, end: nat, violations: seq<Violation>)
    returns (stop: nat, checked: seq<Violation>)
    requires excluded.Length == |lines| && WellMasked(lines, excluded[..]) && ListSeen(lines, excluded[..], b)
    requires end <= |lines| && (RunEnd(b, end) == |lines| || !IsListLine(lines[RunEnd(b, end)]))
    ensures stop == RunEnd(b, end)
    ensures checked == ChecksFrom(b, end, stop, violations)
  {
    ghost var mask := excluded[..];
    ghost var e := RunEnd(b, end);
    stop := end;
    checked := violations;
    while stop < |lines| && IsListLine(lines[stop])
      invariant end <= stop <= e
      invariant RunEnd(b, stop) == e
      invariant ChecksFrom(b, stop, e, checked) == ChecksFrom(b, end, e, violations)
    {
      assert stop < e && b.cand[stop];
      assert !mask[stop];
      if !excluded[stop] {
        checked := checked + BulletReport(lines, stop);
      }
      stop := stop + 1;
    }
  }

  method ListPass(lines: seq<string>, excluded: array<bool>) returns (violations: seq<Violation>)
    requires excluded.Length == |lines| && WellMasked(lines, excluded[..])
    ensures violations == ByLine(ListBlocks(lines, excluded[..]))
  {
    ghost var mask := excluded[..];
    ghost var b := ListSeenOf(lines, mask);
    violations := [];
    var i := 0;
    while i < |lines|
      invariant 0 <= i <= |lines|
      invariant Scan(b, i, violations) == Scan(b, 0, [])
    {
      if excluded[i] {
        assert mask[i];
        i := i + 1;
        continue;
      }
      assert !mask[i];
      if IsListLine(lines[i]) {
        // start of a list block
        var start := i;
        ghost var acc := violations;
        var prev := start - 1;
        if prev >= 0 && !IsBlank(lines[prev]) {
          violations := violations + [Violation(ListBlankBefore, start + 1, ListBlankBeforeMessage)];
        }
        // the bullet check of the block's first line, then of every line
        violations := violations + BulletReport(lines, i);
        ListRunStops(lines, mask, b, start);
        var end;
        end, violations := ListChecks(lines, excluded, b, start, violations);
        var next := end;
        if next < |lines| && !IsBlank(lines[next]) {
          var lastContentLine := end - 1;
          violations := violations + [Violation(ListBlankAfter, lastContentLine + 1, ListBlankAfterMessage)];
        }
        assert violations == ScanRun(b, start, acc);
        i := end;
        continue;
      }
      i := i + 1;
    }
    ScanIsByLine(b);
    ListSeenIsBlocks(lines, mask, b);
  }

  // ---------------------------------------------------------------------
  // Pass 2c: tables (check-md-conformance.js:198-228). A table block is a
  // maximal run of consecutive unflagged table lines.

  function TableCands(lines: seq<string>, mask: seq<bool>): (cand: seq<bool>)
    requires |mask| == |lines|
    ensures |cand| == |lines|
    ensures forall j {:trigger cand[j]} :: 0 <= j < |lines| ==> cand[j] == (!mask[j] && IsTableLine(lines[j]))
  {
    seq(|lines|, j requires 0 <= j < |lines| => !mask[j] && IsTableLine(lines[j]))
  }

  /** The table pass checks nothing inside a block. */
  function NoChecks(n: nat): (checks: seq<seq<Violation>>)
    ensures |checks| == n
    ensures forall j :: 0 <= j < n ==> checks[j] == []
  {
    seq(n, j => [])
  }

  /** The table pass over `lines` with flags `mask`, as a block pass. */
  function TableBlocks(lines: seq<string>, mask: seq<bool>): (b: Blocks)
    requires |mask| == |lines|
    ensures b.Valid() && |b.cand| == |lines|
  {
    Blocks(TableCands(lines, mask), Blanks(lines), NoChecks(|lines|),
           TableBlankBefore, TableBlankBeforeMessage, TableBlankAfter, TableBlankAfterMessage)
  }

  /** What the table pass learns about each line, as `b` tells it. */
  ghost predicate TableSeen(lines: seq<string>, mask: seq<bool>, b: Blocks) {
    b.Valid() && |b.cand| == |lines| && |mask| == |lines|
    && b.before == TableBlankBefore && b.beforeMessage == TableBlankBeforeMessage
    && b.after == TableBlankAfter && b.afterMessage == TableBlankAfterMessage
    && (forall j :: 0 <= j < |lines| && mask[j] ==> !b.cand[j])
    && (forall j {:trigger IsTableLine(lines[j])} :: 0 <= j < |lines| ==> b.cand[j] == (!mask[j] && IsTableLine(lines[j])))
    && (forall j {:trigger IsBlank(lines[j])} :: 0 <= j < |lines| ==> b.blank[j] == IsBlank(lines[j]))
    && (forall j :: 0 <= j < |lines| ==> b.checks[j] == [])
  }

  lemma {:induction false} TableSeenOf(lines: seq<string>, mask: seq<bool>) returns (b: Blocks)
    requires |mask| == |lines|
    ensures TableSeen(lines, mask, b)
  {
    b := TableBlocks(lines, mask);
  }

  /** Whatever agrees with what the table pass learns is its block pass. */
  lemma {:induction false} TableSeenIsBlocks(lines: seq<string>, mask: seq<bool>, b: Blocks)
    requires TableSeen(lines, mask, b)
    ensures b == TableBlocks(lines, mask)
  {
    var t := TableBlocks(lines, mask);
    assert b.cand == t.cand;
    assert b.blank == t.blank;
    assert b.checks == t.checks;
  }

  /** The line after the table block that starts at `start`: the inner loop
      of the table pass (check-md-conformance.js:205-208). */
  method TableEnd(lines: seq<string>, excluded: array<bool>, ghost b: Blocks, start: nat) returns (end: nat)
    requires excluded.Length == |lines| && TableSeen(lines, excluded[..], b)
    requires start < |lines| && b.cand[start]
    ensures end == RunEnd(b, start + 1)
  {
    ghost var mask := excluded[..];
    end := start;
    while end < |lines| && !excluded[end] && IsTableLine(lines[end])
      invariant start <= end <= |lines|
      invariant RunEnd(b, end) == RunEnd(b, start)
    {
      assert !mask[end];
      end := end + 1;
    }
    assert end < |lines| ==> !b.cand[end] by {
      if end < |lines| && excluded[end] {
        assert mask[end];
      }
    }
  }

  method TablePass(lines: seq<string>, excluded: array<bool>) returns (violations: seq<Violation>)
    requires excluded.Length == |lines|
    ensures violations == ByLine(TableBlocks(lines, excluded[..]))
  {
    ghost var mask := excluded[..];
    ghost var b := TableSeenOf(lines, mask);
    violations := [];
    var i := 0;
    while i < |lines|
      invariant 0 <= i <= |lines|
      invariant Scan(b, i, violations) == Scan(b, 0, [])
    {
      if excluded[i] {
        assert mask[i];
        i := i + 1;
        continue;
      }
      assert !mask[i];
      if IsTableLine(lines[i]) {
        var start := i;
        ghost var acc := violations;
        // scan forward while the lines look like table lines
        var end := TableEnd(lines, excluded, b, start);
        var prev := start - 1;
        if prev >= 0 && !IsBlank(lines[prev]) {
          violations := violations + [Violation(TableBlankBefore, start + 1, TableBlankBeforeMessage)];
        }
        assert violations + b.checks[start] == violations;
        ChecksFromNothing(b, start, end, violations);
        var next := end;
        if next < |lines| && !IsBlank(lines[next]) {
          var last := end - 1;
          violations := violations + [Violation(TableBlankAfter, last + 1, TableBlankAfterMessage)];
        }
        assert violations == ScanRun(b, start, acc);
        i := end;
        continue;
      }
      i := i + 1;
    }
    ScanIsByLine(b);
    TableSeenIsBlocks(lines, mask, b);
  }

  // ---------------------------------------------------------------------
  // The whole check.

  /** What `checkFile` returns for a file's text: the fence reports, then the
      list reports, then the table reports, each in line order. */
  function Check(content: string): seq<Violation> {
    var lines := SplitLines(content);
    var mask := ExcludedMask(lines);
    FenceViolations(lines) + ByLine(ListBlocks(lines, mask)) + ByLine(TableBlocks(lines, mask))
  }

  /** `checkFile` on the text of a file (check-md-conformance.js:76-231). */
  method CheckFile(content: string) returns (violations: seq<Violation>)
    ensures violations == Check(content)
  {
    var lines := SplitLines(content);
    var excluded := MarkExcluded(lines);
    ExcludedMaskWellMasked(lines);
    var fences := FencePass(lines, excluded);
    var lists := ListPass(lines, excluded);
    var tables := TablePass(lines, excluded);
    violations := fences + lists + tables;
  }
}
