/** Character classes and string helpers shared by the Markdown tools and the
    runner adapter: JavaScript's white space, trim, split and join, written out
    over `seq<char>`. */
module Text {

  datatype Option<T> = None | Some(value: T)

  /** ECMAScript white space: the WhiteSpace and LineTerminator code points.
      This is both what the regular-expression class `\s` matches and what
      `String.prototype.trim` removes, so one predicate serves both. */
  predicate IsSpace(c: char) {
    var n := c as int;
    n == 0x09 || n == 0x0A || n == 0x0B || n == 0x0C || n == 0x0D || n == 0x20
    || n == 0xA0 || n == 0x1680 || (0x2000 <= n <= 0x200A) || n == 0x2028
    || n == 0x2029 || n == 0x202F || n == 0x205F || n == 0x3000 || n == 0xFEFF
  }

  /** The code points that `.` does not match in a JavaScript regular expression
      (and where `^`/`$` match in multi-line mode). */
  predicate IsLineTerminator(c: char) {
    c == '\n' || c == '\r' || c as int == 0x2028 || c as int == 0x2029
  }

  /** No character of `s` from `i` on ends a line, so `.*` matches all of it. */
  predicate NoBreakFrom(s: string, i: nat)
    requires i <= |s|
    decreases |s| - i
  {
    i == |s| || (!IsLineTerminator(s[i]) && NoBreakFrom(s, i + 1))
  }

  /** `NoBreakFrom` says what its name says. */
  lemma {:induction false} NoBreakFromIsAll(s: string, i: nat)
    requires i <= |s|
    ensures NoBreakFrom(s, i) <==> forall j :: i <= j < |s| ==> !IsLineTerminator(s[j])
    decreases |s| - i
  {
    if i < |s| {
      NoBreakFromIsAll(s, i + 1);
    }
  }

  predicate IsDigit(c: char) { '0' <= c <= '9' }

  predicate IsAsciiLetter(c: char) { 'a' <= c <= 'z' || 'A' <= c <= 'Z' }

  predicate AllSpace(s: string) {
    forall i :: 0 <= i < |s| ==> IsSpace(s[i])
  }

  predicate StartsWith(s: string, prefix: string) {
    |prefix| <= |s| && s[..|prefix|] == prefix
  }

  predicate EndsWith(s: string, suffix: string) {
    |suffix| <= |s| && s[|s| - |suffix|..] == suffix
  }

  lemma EndsWithAppend(s: string, suffix: string)
    ensures EndsWith(s + suffix, suffix)
  {
    assert (s + suffix)[|s|..] == suffix;
  }

  /** `s.includes(sub)` */
  predicate Contains(s: string, sub: string) {
    StartsWith(s, sub) || (s != [] && Contains(s[1..], sub))
  }

  /** `s.trimStart()`: drops the longest all-space prefix. */
  function TrimStart(s: string): (r: string)
    ensures |r| <= |s|
    ensures AllSpace(s[..|s| - |r|])
    ensures r == [] || !IsSpace(r[0])
  {
    if s != [] && IsSpace(s[0]) then TrimStart(s[1..]) else s
  }

  /** What `trimStart` keeps is the rest of the string after what it drops. */
  lemma {:induction false} TrimStartIsSuffix(s: string)
    ensures TrimStart(s) == s[|s| - |TrimStart(s)|..]
  {
    if s != [] && IsSpace(s[0]) {
      TrimStartIsSuffix(s[1..]);
    }
  }

  /** The end of the run of white space that starts at `i`. */
  function SpaceEnd(s: string, i: nat): (k: nat)
    requires i <= |s|
    ensures i <= k <= |s|
    decreases |s| - i
  {
    if i < |s| && IsSpace(s[i]) then SpaceEnd(s, i + 1) else i
  }

  /** `SpaceEnd` is the whole run: white space up to it, then none. */
  lemma {:induction false} SpaceEndIsRun(s: string, i: nat)
    requires i <= |s|
    ensures forall j :: i <= j < SpaceEnd(s, i) ==> IsSpace(s[j])
    ensures SpaceEnd(s, i) < |s| ==> !IsSpace(s[SpaceEnd(s, i)])
    decreases |s| - i
  {
    if i < |s| && IsSpace(s[i]) {
      SpaceEndIsRun(s, i + 1);
    }
  }

  /** A run of white space from `i` to `k` that nothing extends ends at `k`. */
  lemma {:induction false} SpaceEndIs(s: string, i: nat, k: nat)
    requires i <= k <= |s| && (forall j :: i <= j < k ==> IsSpace(s[j])) && (k < |s| ==> !IsSpace(s[k]))
    ensures SpaceEnd(s, i) == k
    decreases k - i
  {
    if i < k {
      SpaceEndIs(s, i + 1, k);
    }
  }

  /** `trimStart` of what starts at `i` is what starts where the space ends. */
  lemma {:induction false} TrimStartFrom(s: string, i: nat)
    requires i <= |s|
    ensures TrimStart(s[i..]) == s[SpaceEnd(s, i)..]
    decreases |s| - i
  {
    if i < |s| && IsSpace(s[i]) {
      assert s[i..][1..] == s[i + 1..];
      TrimStartFrom(s, i + 1);
    }
  }

  /** `s.trimEnd()`: drops the longest all-space suffix. */
  function TrimEnd(s: string): (r: string)
    ensures |r| <= |s|
    ensures AllSpace(s[|r|..])
    ensures r == [] || !IsSpace(r[|r| - 1])
  {
    if s != [] && IsSpace(s[|s| - 1]) then TrimEnd(s[..|s| - 1]) else s
  }

  /** What `trimEnd` keeps is the start of the string before what it drops. */
  lemma {:induction false} TrimEndIsPrefix(s: string)
    ensures TrimEnd(s) == s[..|TrimEnd(s)|]
  {
    if s != [] && IsSpace(s[|s| - 1]) {
      TrimEndIsPrefix(s[..|s| - 1]);
    }
  }

  /** `s.trim()` */
  function Trim(s: string): (r: string)
    ensures |r| <= |s|
    ensures r == [] || (!IsSpace(r[0]) && !IsSpace(r[|r| - 1]))
    ensures r == [] <==> AllSpace(s)
  {
    var t := TrimStart(s);
    TrimStartIsSuffix(s);
    assert s == s[..|s| - |t|] + t;
    TrimEndIsPrefix(t);
    TrimEnd(t)
  }

  /** Trimming is idempotent: what `trim` returns has nothing left to trim. */
  lemma TrimIdempotent(s: string)
    ensures Trim(Trim(s)) == Trim(s)
  {
    var r := Trim(s);
    assert TrimStart(r) == r;
    assert TrimEnd(r) == r;
  }

  /** A string with no space at either end is its own trim. */
  lemma TrimOfUntrimmable(s: string)
    requires s == [] || (!IsSpace(s[0]) && !IsSpace(s[|s| - 1]))
    ensures Trim(s) == s
  {
    assert TrimStart(s) == s;
  }

  /** Trimming the start first changes nothing: `trim` also trims the start. */
  lemma TrimAfterTrimStart(s: string)
    ensures Trim(TrimStart(s)) == Trim(s)
  {
    assert TrimStart(TrimStart(s)) == TrimStart(s);
  }

  /** A non-space character is never cut off by `trimEnd`. */
  lemma {:induction false} TrimEndKeeps(s: string, i: nat)
    requires i < |s| && !IsSpace(s[i])
    ensures i < |TrimEnd(s)|
  {
    if s != [] && IsSpace(s[|s| - 1]) {
      TrimEndKeeps(s[..|s| - 1], i);
    }
  }

  /** A non-space first character survives `trim` in front. */
  lemma TrimKeepsLeadingNonSpace(s: string)
    requires s != [] && !IsSpace(s[0])
    ensures Trim(s) != [] && Trim(s) == s[..|Trim(s)|]
  {
    assert !AllSpace(s);
    TrimStartIsSuffix(s);
    TrimEndIsPrefix(TrimStart(s));
  }

  /** `xs[a..b]`, built from its end one element at a time. */
  function Slice<T>(xs: seq<T>, a: nat, b: nat): (r: seq<T>)
    requires a <= b <= |xs|
    ensures |r| == b - a
    decreases b - a
  {
    if a == b then [] else Slice(xs, a, b - 1) + [xs[b - 1]]
  }

  /** Element `j - a` of the slice is element `j` of the whole. */
  lemma {:induction false} SliceAt<T>(xs: seq<T>, a: nat, b: nat, j: nat)
    requires a <= j < b <= |xs|
    ensures Slice(xs, a, b)[j - a] == xs[j]
    decreases b - a
  {
    if j < b - 1 {
      SliceAt(xs, a, b - 1, j);
    }
  }

  /** `Slice` is Dafny's own slice. */
  lemma SliceIsSlice<T>(xs: seq<T>, a: nat, b: nat)
    requires a <= b <= |xs|
    ensures Slice(xs, a, b) == xs[a..b]
  {
    forall i | 0 <= i < b - a
      ensures Slice(xs, a, b)[i] == xs[a..b][i]
    {
      SliceAt(xs, a, b, a + i);
    }
  }

  /** The index of the first `c` in `s`, or `|s|` when there is none. */
  function FirstIndexOf(s: string, c: char): (k: nat)
    ensures k <= |s|
    ensures k < |s| ==> s[k] == c
    ensures c !in s[..k]
  {
    if s == [] then 0
    else if s[0] == c then 0
    else
      var k := 1 + FirstIndexOf(s[1..], c);
      assert s[..k] == [s[0]] + s[1..][..k - 1];
      k
  }

  /** `s.split(sep)` for a one-character string separator. */
  function Split(s: string, sep: char): (parts: seq<string>)
    ensures |parts| >= 1
    ensures forall k :: 0 <= k < |parts| ==> sep !in parts[k]
    decreases |s|
  {
    var k := FirstIndexOf(s, sep);
    if k == |s| then [s] else [s[..k]] + Split(s[k + 1..], sep)
  }

  /** `parts.join(sep)` */
  function Join(parts: seq<string>, sep: string): string {
    if parts == [] then []
    else if |parts| == 1 then parts[0]
    else parts[0] + sep + Join(parts[1..], sep)
  }

  /** Splitting and joining again on the same separator gives back the text. */
  lemma {:induction false} JoinSplit(s: string, sep: char)
    ensures Join(Split(s, sep), [sep]) == s
    decreases |s|
  {
    var k := FirstIndexOf(s, sep);
    if k < |s| {
      JoinSplit(s[k + 1..], sep);
      assert s == s[..k] + [sep] + s[k + 1..];
    }
  }

  /** Joining pieces that do not contain the separator and splitting again
      gives back the pieces. */
  lemma {:induction false} SplitJoin(parts: seq<string>, sep: char)
    requires |parts| >= 1
    requires forall k :: 0 <= k < |parts| ==> sep !in parts[k]
    ensures Split(Join(parts, [sep]), sep) == parts
  {
    var s := Join(parts, [sep]);
    if |parts| == 1 {
      assert FirstIndexOf(s, sep) == |s|;
    } else {
      var p := parts[0];
      var rest := Join(parts[1..], [sep]);
      assert s == p + [sep] + rest;
      FirstIndexInJoin(p, sep, rest);
      assert s[..|p|] == p && s[|p| + 1..] == rest;
      SplitJoin(parts[1..], sep);
    }
  }

  lemma {:induction false} FirstIndexInJoin(p: string, sep: char, rest: string)
    requires sep !in p
    ensures FirstIndexOf(p + [sep] + rest, sep) == |p|
  {
    if p != [] {
      assert (p + [sep] + rest)[1..] == p[1..] + [sep] + rest;
      FirstIndexInJoin(p[1..], sep, rest);
    }
  }

  /** Drops one carriage return at the end of a piece: the `\r?` of `/\r?\n/`. */
  function DropCR(p: string): (r: string)
    ensures r == p || (p == r + ['\r'])
  {
    if p != [] && p[|p| - 1] == '\r' then p[..|p| - 1] else p
  }

  /** `s.split(/\r?\n/)`: a line break is `\n` or `\r\n`; a lone `\r` is kept.
      The last piece is not followed by a break, so its `\r` stays. */
  function SplitLines(s: string): (lines: seq<string>)
    ensures |lines| == |Split(s, '\n')|
    ensures forall k :: 0 <= k < |lines| ==> '\n' !in lines[k]
    ensures |lines| - 1 == multiset(s)['\n']
    decreases |s|
  {
    var k := FirstIndexOf(s, '\n');
    if k == |s| then [s]
    else
      assert s == s[..k] + ['\n'] + s[k + 1..];
      assert multiset(s) == multiset(s[..k]) + multiset(['\n']) + multiset(s[k + 1..]);
      [DropCR(s[..k])] + SplitLines(s[k + 1..])
  }

  /** Without carriage returns the two ways of splitting agree. */
  lemma {:induction false} SplitLinesWithoutCR(s: string)
    requires '\r' !in s
    ensures SplitLines(s) == Split(s, '\n')
    decreases |s|
  {
    var k := FirstIndexOf(s, '\n');
    if k < |s| {
      assert '\r' !in s[k + 1..];
      if k > 0 { assert s[..k][k - 1] == s[k - 1]; }
      SplitLinesWithoutCR(s[k + 1..]);
    }
  }

  /** `split(/\r?\n/)` is the split on line feeds with one carriage return
      dropped from the end of every piece but the last: only a piece that a
      line feed follows can end in the `\r` of a `\r\n`. */
  lemma SplitLinesIsSplit(s: string)
    ensures |SplitLines(s)| == |Split(s, '\n')|
    ensures forall k :: 0 <= k < |SplitLines(s)| - 1 ==> SplitLines(s)[k] == DropCR(Split(s, '\n')[k])
    ensures SplitLines(s)[|SplitLines(s)| - 1] == Split(s, '\n')[|Split(s, '\n')| - 1]
  {
    forall k | 0 <= k < |SplitLines(s)| - 1
      ensures SplitLines(s)[k] == DropCR(Split(s, '\n')[k])
    {
      SplitLinesAt(s, k);
    }
    SplitLinesLast(s);
  }

  /** Line `k` of `split(/\r?\n/)`, when a line feed follows it. */
  lemma {:induction false} SplitLinesAt(s: string, k: nat)
    requires k < |Split(s, '\n')| - 1
    ensures SplitLines(s)[k] == DropCR(Split(s, '\n')[k])
    decreases |s|
  {
    var i := FirstIndexOf(s, '\n');
    if k > 0 {
      SplitLinesAt(s[i + 1..], k - 1);
    }
  }

  /** The last line of `split(/\r?\n/)` keeps its carriage return. */
  lemma {:induction false} SplitLinesLast(s: string)
    ensures SplitLines(s)[|SplitLines(s)| - 1] == Split(s, '\n')[|Split(s, '\n')| - 1]
    decreases |s|
  {
    var i := FirstIndexOf(s, '\n');
    if i < |s| {
      SplitLinesLast(s[i + 1..]);
    }
  }
}
