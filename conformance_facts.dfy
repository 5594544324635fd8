/** What the reports of `checkFile` say about the file: which line gets which
    report, and in what order they come. */
module MdConformanceFacts {
  import opened Text
  import opened MdConformance

  // ---------------------------------------------------------------------
  // Block passes in general.

  /** The checks a block pass makes inside a block each name their own line
      and are of neither of the kinds that the two blank-line rules report. */
  predicate ChecksFit(b: Blocks)
    requires b.Valid()
  {
    b.before != b.after
    && forall j, x :: 0 <= j < |b.cand| && x in b.checks[j] ==>
         x.line == j + 1 && x.kind != b.before && x.kind != b.after
  }

  lemma {:induction false} BlockReportsAttributed(b: Blocks)
    requires b.Valid() && ChecksFit(b)
    ensures Attributed(Reports(b))
  {
    forall j, x | 0 <= j < |b.cand| && x in Reports(b)[j]
      ensures x.line == j + 1
    {
      ReportsAtLine(b, j);
    }
  }

  /** The reports of a block pass are in line order; each names a line of a
      block and is a blank-line report or a check made at that line. */
  lemma {:induction false} ByLineInOrder(b: Blocks)
    requires b.Valid() && ChecksFit(b)
    ensures Sorted(ByLine(b))
    ensures forall x :: x in ByLine(b) ==>
      1 <= x.line <= |b.cand| && b.cand[x.line - 1]
      && (x.kind == b.before || x.kind == b.after || x in b.checks[x.line - 1])
  {
    BlockReportsAttributed(b);
    GatherSorted(Reports(b), |b.cand|);
    GatherLines(Reports(b), |b.cand|);
    forall x | x in ByLine(b)
      ensures b.cand[x.line - 1] && (x.kind == b.before || x.kind == b.after || x in b.checks[x.line - 1])
    {
      GatherMember(Reports(b), |b.cand|, x);
      ReportsAtLine(b, x.line - 1);
    }
  }

  /** A report occurs among all the reports as often as its own line reports it. */
  lemma {:induction false} ByLineCount(b: Blocks, x: Violation)
    requires b.Valid() && ChecksFit(b) && 1 <= x.line <= |b.cand|
    ensures multiset(ByLine(b))[x] == multiset(ReportsAt(b, x.line - 1))[x]
  {
    BlockReportsAttributed(b);
    GatherCount(Reports(b), |b.cand|, x);
    ReportsAtLine(b, x.line - 1);
  }

  /** The blank-line-before report is made at the first line of a block
      exactly when that line has a line before it that is not blank. */
  lemma {:induction false} BeforeRule(b: Blocks, j: nat)
    requires b.Valid() && ChecksFit(b) && j < |b.cand|
    ensures Violation(b.before, j + 1, b.beforeMessage) in ByLine(b)
        <==> RunStart(b, j) && j > 0 && !b.blank[j - 1]
  {
    var x := Violation(b.before, j + 1, b.beforeMessage);
    ByLineCount(b, x);
    assert x !in b.checks[j];
    assert x !in Tail(b, j);
  }

  /** The blank-line-after report is made at the last line of a block exactly
      when that line has a line after it that is not blank. */
  lemma {:induction false} AfterRule(b: Blocks, j: nat)
    requires b.Valid() && ChecksFit(b) && j < |b.cand|
    ensures Violation(b.after, j + 1, b.afterMessage) in ByLine(b)
        <==> RunLast(b, j) && j + 1 < |b.cand| && !b.blank[j + 1]
  {
    var x := Violation(b.after, j + 1, b.afterMessage);
    ByLineCount(b, x);
    assert x !in b.checks[j];
    assert x !in BeforeReport(b, j);
  }

  /** How often a line reports one of its checks. */
  lemma {:induction false} ReportsAtCount(b: Blocks, j: nat, x: Violation)
    requires b.Valid() && j < |b.cand| && x.kind != b.before && x.kind != b.after
    ensures multiset(ReportsAt(b, j))[x]
         == if !b.cand[j] then 0
            else if RunStart(b, j) then 2 * multiset(b.checks[j])[x]
            else multiset(b.checks[j])[x]
  {
    if b.cand[j] {
      var h := Head(b, j);
      var c := b.checks[j];
      var t := Tail(b, j);
      assert multiset(t)[x] == 0;
      assert multiset(h + c + t) == multiset(h) + multiset(c) + multiset(t);
      if RunStart(b, j) {
        assert multiset(BeforeReport(b, j))[x] == 0;
        assert multiset(h) == multiset(BeforeReport(b, j)) + multiset(c);
      } else {
        assert h == [];
      }
    }
  }

  /** A check made at a line is reported once per occurrence, and twice at the
      first line of a block; outside blocks it is not reported at all. */
  lemma {:induction false} CheckRule(b: Blocks, j: nat, x: Violation)
    requires b.Valid() && ChecksFit(b) && j < |b.cand|
    requires x.line == j + 1 && x.kind != b.before && x.kind != b.after
    ensures multiset(ByLine(b))[x]
         == if !b.cand[j] then 0
            else if RunStart(b, j) then 2 * multiset(b.checks[j])[x]
            else multiset(b.checks[j])[x]
  {
    ByLineCount(b, x);
    ReportsAtCount(b, j, x);
  }

  // ---------------------------------------------------------------------
  // The list pass.

  /** Line `j` belongs to a list block: an unflagged list line. */
  predicate InList(lines: seq<string>, mask: seq<bool>, j: nat)
    requires |mask| == |lines| && j < |lines|
  {
    !mask[j] && IsListLine(lines[j])
  }

  predicate ListStarts(lines: seq<string>, mask: seq<bool>, j: nat)
    requires |mask| == |lines| && j < |lines|
  {
    InList(lines, mask, j) && (j == 0 || !InList(lines, mask, j - 1))
  }

  predicate ListEnds(lines: seq<string>, mask: seq<bool>, j: nat)
    requires |mask| == |lines| && j < |lines|
  {
    InList(lines, mask, j) && (j + 1 == |lines| || !InList(lines, mask, j + 1))
  }

  lemma {:induction false} ListChecksFit(lines: seq<string>, mask: seq<bool>)
    requires |mask| == |lines|
    ensures ChecksFit(ListBlocks(lines, mask))
  {
    var b := ListBlocks(lines, mask);
    forall j, x | 0 <= j < |lines| && x in b.checks[j]
      ensures x.line == j + 1 && x.kind == BulletMarker
    {
      assert b.checks[j] == if mask[j] then [] else BulletReport(lines, j);
    }
  }

  /** The list reports are in line order, and each names an unflagged list
      line: none falls on a line inside a code fence. */
  lemma {:induction false} ListReportsInOrder(lines: seq<string>, mask: seq<bool>)
    requires |mask| == |lines|
    ensures Sorted(ByLine(ListBlocks(lines, mask)))
    ensures forall x :: x in ByLine(ListBlocks(lines, mask)) ==>
      1 <= x.line <= |lines| && InList(lines, mask, x.line - 1)
      && (x.kind == ListBlankBefore || x.kind == ListBlankAfter || x.kind == BulletMarker)
  {
    var b := ListBlocks(lines, mask);
    ListChecksFit(lines, mask);
    ByLineInOrder(b);
    forall x | x in ByLine(b)
      ensures InList(lines, mask, x.line - 1)
      && (x.kind == ListBlankBefore || x.kind == ListBlankAfter || x.kind == BulletMarker)
    {
      assert b.cand[x.line - 1];
    }
  }

  /** `list-blank-before` is reported at the first line of a list block
      exactly when the line before it exists and is not blank. */
  lemma {:induction false} ListBlankBeforeRule(lines: seq<string>, mask: seq<bool>, j: nat)
    requires |mask| == |lines| && j < |lines|
    ensures Violation(ListBlankBefore, j + 1, ListBlankBeforeMessage) in ByLine(ListBlocks(lines, mask))
        <==> ListStarts(lines, mask, j) && j > 0 && !IsBlank(lines[j - 1])
  {
    var b := ListBlocks(lines, mask);
    ListChecksFit(lines, mask);
    BeforeRule(b, j);
    assert RunStart(b, j) == ListStarts(lines, mask, j);
    if j > 0 {
      assert b.blank[j - 1] == IsBlank(lines[j - 1]);
    }
  }

  /** `list-blank-after` is reported at the last line of a list block exactly
      when the line after it exists and is not blank. */
  lemma {:induction false} ListBlankAfterRule(lines: seq<string>, mask: seq<bool>, j: nat)
    requires |mask| == |lines| && j < |lines|
    ensures Violation(ListBlankAfter, j + 1, ListBlankAfterMessage) in ByLine(ListBlocks(lines, mask))
        <==> ListEnds(lines, mask, j) && j + 1 < |lines| && !IsBlank(lines[j + 1])
  {
    var b := ListBlocks(lines, mask);
    ListChecksFit(lines, mask);
    AfterRule(b, j);
    assert RunLast(b, j) == ListEnds(lines, mask, j);
    if j + 1 < |lines| {
      assert b.blank[j + 1] == IsBlank(lines[j + 1]);
    }
  }

  /** A list line whose bullet is `*` or `+` gets one `bullet-marker` report,
      two when it is the first line of its block; no other line gets one. */
  lemma {:induction false} BulletRule(lines: seq<string>, mask: seq<bool>, j: nat, c: char)
    requires |mask| == |lines| && j < |lines|
    ensures multiset(ByLine(ListBlocks(lines, mask)))[Violation(BulletMarker, j + 1, BulletMessage(c))]
         == if InList(lines, mask, j) && BulletMarkerOf(lines[j]) == Some(c) && c != '-'
            then (if ListStarts(lines, mask, j) then 2 else 1)
            else 0
  {
    var b := ListBlocks(lines, mask);
    var x := Violation(BulletMarker, j + 1, BulletMessage(c));
    ListChecksFit(lines, mask);
    CheckRule(b, j, x);
    assert RunStart(b, j) == ListStarts(lines, mask, j);
    if b.cand[j] {
      assert b.checks[j] == BulletReport(lines, j);
      if BulletMarkerOf(lines[j]) == Some(c) && c != '-' {
        assert b.checks[j] == [x];
      } else if b.checks[j] != [] {
        var m := BulletMarkerOf(lines[j]).value;
        assert m != c;
        assert BulletMessage(m)[|BulletMessage(m)| - 2] == m;
        assert BulletMessage(c)[|BulletMessage(c)| - 2] == c;
        assert b.checks[j] == [Violation(BulletMarker, j + 1, BulletMessage(m))];
      }
    }
  }

  // ---------------------------------------------------------------------
  // The table pass.

  /** Line `j` belongs to a table block: an unflagged table line. */
  predicate InTable(lines: seq<string>, mask: seq<bool>, j: nat)
    requires |mask| == |lines| && j < |lines|
  {
    !mask[j] && IsTableLine(lines[j])
  }

  predicate TableStarts(lines: seq<string>, mask: seq<bool>, j: nat)
    requires |mask| == |lines| && j < |lines|
  {
    InTable(lines, mask, j) && (j == 0 || !InTable(lines, mask, j - 1))
  }

  predicate TableEnds(lines: seq<string>, mask: seq<bool>, j: nat)
    requires |mask| == |lines| && j < |lines|
  {
    InTable(lines, mask, j) && (j + 1 == |lines| || !InTable(lines, mask, j + 1))
  }

  lemma {:induction false} TableChecksFit(lines: seq<string>, mask: seq<bool>)
    requires |mask| == |lines|
    ensures ChecksFit(TableBlocks(lines, mask))
  {
  }

  /** The table reports are in line order, and each is a blank-line report
      naming an unflagged table line. */
  lemma {:induction false} TableReportsInOrder(lines: seq<string>, mask: seq<bool>)
    requires |mask| == |lines|
    ensures Sorted(ByLine(TableBlocks(lines, mask)))
    ensures forall x :: x in ByLine(TableBlocks(lines, mask)) ==>
      1 <= x.line <= |lines| && InTable(lines, mask, x.line - 1)
      && (x.kind == TableBlankBefore || x.kind == TableBlankAfter)
  {
    var b := TableBlocks(lines, mask);
    TableChecksFit(lines, mask);
    ByLineInOrder(b);
    forall x | x in ByLine(b)
      ensures InTable(lines, mask, x.line - 1) && (x.kind == TableBlankBefore || x.kind == TableBlankAfter)
    {
      assert b.cand[x.line - 1];
      assert b.checks[x.line - 1] == [];
    }
  }

  /** `table-blank-before` is reported at the first line of a table block
      exactly when the line before it exists and is not blank. */
  lemma {:induction false} TableBlankBeforeRule(lines: seq<string>, mask: seq<bool>, j: nat)
    requires |mask| == |lines| && j < |lines|
    ensures Violation(TableBlankBefore, j + 1, TableBlankBeforeMessage) in ByLine(TableBlocks(lines, mask))
        <==> TableStarts(lines, mask, j) && j > 0 && !IsBlank(lines[j - 1])
  {
    var b := TableBlocks(lines, mask);
    TableChecksFit(lines, mask);
    BeforeRule(b, j);
    assert RunStart(b, j) == TableStarts(lines, mask, j);
    if j > 0 {
      assert b.blank[j - 1] == IsBlank(lines[j - 1]);
    }
  }

  /** `table-blank-after` is reported at the last line of a table block
      exactly when the line after it exists and is not blank. */
  lemma {:induction false} TableBlankAfterRule(lines: seq<string>, mask: seq<bool>, j: nat)
    requires |mask| == |lines| && j < |lines|
    ensures Violation(TableBlankAfter, j + 1, TableBlankAfterMessage) in ByLine(TableBlocks(lines, mask))
        <==> TableEnds(lines, mask, j) && j + 1 < |lines| && !IsBlank(lines[j + 1])
  {
    var b := TableBlocks(lines, mask);
    TableChecksFit(lines, mask);
    AfterRule(b, j);
    assert RunLast(b, j) == TableEnds(lines, mask, j);
    if j + 1 < |lines| {
      assert b.blank[j + 1] == IsBlank(lines[j + 1]);
    }
  }

  // ---------------------------------------------------------------------
  // The fence pass.

  /** A fence line that opens a fence: an even number of fence lines come
      before it. The others close one. */
  predicate Opens(lines: seq<string>, i: nat)
    requires i < |lines|
  {
    IsFenceStart(lines[i]) && FenceStartsBefore(lines, i) % 2 == 0
  }

  predicate Closes(lines: seq<string>, i: nat)
    requires i < |lines|
  {
    IsFenceStart(lines[i]) && FenceStartsBefore(lines, i) % 2 == 1
  }

  lemma {:induction false} FenceReportsAttributed(lines: seq<string>)
    ensures Attributed(FenceReports(lines))
  {
    forall j, x | 0 <= j < |lines| && x in FenceReports(lines)[j]
      ensures x.line == j + 1
    {
      FenceReportsAtLine(lines, j);
    }
  }

  /** The fence reports are in line order and each names a fence line. */
  lemma {:induction false} FenceReportsInOrder(lines: seq<string>)
    ensures Sorted(FenceViolations(lines))
    ensures forall x :: x in FenceViolations(lines) ==>
      1 <= x.line <= |lines| && IsFenceStart(lines[x.line - 1])
      && (x.kind == FenceLanguageMissing || x.kind == FenceBlankBefore || x.kind == FenceBlankAfter)
  {
    var r := FenceReports(lines);
    FenceReportsAttributed(lines);
    GatherSorted(r, |lines|);
    GatherLines(r, |lines|);
    forall x | x in FenceViolations(lines)
      ensures IsFenceStart(lines[x.line - 1])
      && (x.kind == FenceLanguageMissing || x.kind == FenceBlankBefore || x.kind == FenceBlankAfter)
    {
      GatherMember(r, |lines|, x);
      FenceReportsAtLine(lines, x.line - 1);
    }
  }

  /** Whether line `i` gets each of the three fence reports. An opening fence
      may lack a language or a blank line before it; a closing one, whatever
      follows its backticks, may only lack a blank line after it. */
  lemma {:induction false} FenceRules(lines: seq<string>, i: nat)
    requires i < |lines|
    ensures Violation(FenceLanguageMissing, i + 1, FenceLanguageMessage) in FenceViolations(lines)
        <==> Opens(lines, i) && FenceLanguage(lines[i]) == []
    ensures Violation(FenceBlankBefore, i + 1, FenceBlankBeforeMessage) in FenceViolations(lines)
        <==> Opens(lines, i) && i > 0 && !IsBlank(lines[i - 1])
    ensures Violation(FenceBlankAfter, i + 1, FenceBlankAfterMessage) in FenceViolations(lines)
        <==> Closes(lines, i) && i + 1 < |lines| && !IsBlank(lines[i + 1])
  {
    FenceReportsAttributed(lines);
    InsideFenceIsOddCount(lines, i);
    FenceReportsAtLine(lines, i);
    GatherMember(FenceReports(lines), |lines|, Violation(FenceLanguageMissing, i + 1, FenceLanguageMessage));
    GatherMember(FenceReports(lines), |lines|, Violation(FenceBlankBefore, i + 1, FenceBlankBeforeMessage));
    GatherMember(FenceReports(lines), |lines|, Violation(FenceBlankAfter, i + 1, FenceBlankAfterMessage));
  }

  // ---------------------------------------------------------------------
  // The whole check.

  predicate FenceKind(k: Kind) { k == FenceLanguageMissing || k == FenceBlankBefore || k == FenceBlankAfter }
  predicate ListKind(k: Kind) { k == ListBlankBefore || k == ListBlankAfter || k == BulletMarker }
  predicate TableKind(k: Kind) { k == TableBlankBefore || k == TableBlankAfter }

  /** `checkFile` reports the fence violations, then the list violations, then
      the table violations, each part in line order; every report names a
      line of the file, and the list and table reports name lines outside
      code fences. */
  lemma {:induction false} CheckInOrder(content: string)
    ensures var lines := SplitLines(content);
      exists f: seq<Violation>, l: seq<Violation>, t: seq<Violation> ::
        Check(content) == f + l + t
        && Sorted(f) && Sorted(l) && Sorted(t)
        && (forall x :: x in f ==> FenceKind(x.kind))
        && (forall x :: x in l ==> ListKind(x.kind) && 1 <= x.line <= |lines| && !Excluded(lines, x.line - 1))
        && (forall x :: x in t ==> TableKind(x.kind) && 1 <= x.line <= |lines| && !Excluded(lines, x.line - 1))
    ensures forall x :: x in Check(content) ==> 1 <= x.line <= |SplitLines(content)|
  {
    var lines := SplitLines(content);
    var mask := ExcludedMask(lines);
    var f := FenceViolations(lines);
    var l := ByLine(ListBlocks(lines, mask));
    var t := ByLine(TableBlocks(lines, mask));
    FenceReportsInOrder(lines);
    ListReportsInOrder(lines, mask);
    TableReportsInOrder(lines, mask);
    assert Check(content) == f + l + t;
    forall x | x in l
      ensures ListKind(x.kind) && 1 <= x.line <= |lines| && !Excluded(lines, x.line - 1)
    {
      assert !mask[x.line - 1];
    }
    forall x | x in t
      ensures TableKind(x.kind) && 1 <= x.line <= |lines| && !Excluded(lines, x.line - 1)
    {
      assert !mask[x.line - 1];
    }
    forall x | x in Check(content)
      ensures 1 <= x.line <= |lines|
    {
      assert x in f || x in l || x in t;
    }
  }
}
