/** `extract_customer_blocks`: split pasted text into one block of lines per customer. */
module Segmenter {
  import opened Text

  // ---------------------------------------------------------------------------
  // Line endings
  // ---------------------------------------------------------------------------

  /** `re.sub(r'\r\n', '\n', s)`. */
  function ReplaceCrLf(s: string): (r: string)
    decreases |s|
  {
    if |s| == 0 then ""
    else if |s| >= 2 && s[0] == '\r' && s[1] == '\n' then "\n" + ReplaceCrLf(s[2..])
    else [s[0]] + ReplaceCrLf(s[1..])
  }

  /** `re.sub(r'\r', '\n', s)`. */
  function ReplaceCr(s: string): (r: string)
    ensures |r| == |s|
    ensures forall i :: 0 <= i < |s| ==> r[i] == if s[i] == '\r' then '\n' else s[i]
  {
    seq(|s|, i requires 0 <= i < |s| => if s[i] == '\r' then '\n' else s[i])
  }

  /** Lines 54-55: Windows and old Mac line endings become `\n`. */
  function NormalizeLineEndings(s: string): string {
    ReplaceCr(ReplaceCrLf(s))
  }

  lemma {:induction false} ReplaceCrLfKeepsBlankness(s: string)
    ensures IsBlank(ReplaceCrLf(s)) <==> IsBlank(s)
    decreases |s|
  {
    if |s| >= 2 && s[0] == '\r' && s[1] == '\n' {
      ReplaceCrLfKeepsBlankness(s[2..]);
      BlankConcat(s[..2], s[2..]);
      BlankConcat("\n", ReplaceCrLf(s[2..]));
      assert s[..2] + s[2..] == s;
    } else if |s| > 0 {
      ReplaceCrLfKeepsBlankness(s[1..]);
      BlankConcat([s[0]], s[1..]);
      BlankConcat([s[0]], ReplaceCrLf(s[1..]));
      assert [s[0]] + s[1..] == s;
      assert ReplaceCrLf(s) == [s[0]] + ReplaceCrLf(s[1..]);
    }
  }

  /** No carriage return survives, a text without one is left alone, blank text stays blank
      and non-blank text stays non-blank, and normalising twice is the same as normalising
      once. */
  lemma NormalizeLineEndingsSpec(s: string)
    ensures '\r' !in NormalizeLineEndings(s)
    ensures '\r' !in s ==> NormalizeLineEndings(s) == s
    ensures IsBlank(NormalizeLineEndings(s)) <==> IsBlank(s)
    ensures NormalizeLineEndings(NormalizeLineEndings(s)) == NormalizeLineEndings(s)
  {
    var r := NormalizeLineEndings(s);
    ReplaceCrLfKeepsBlankness(s);
    var m := ReplaceCrLf(s);
    assert IsBlank(r) <==> IsBlank(m) by {
      assert forall i :: 0 <= i < |m| ==> (IsSpace(r[i]) <==> IsSpace(m[i]));
    }
    CrFreeUnchanged(r);
    if '\r' !in s {
      CrFreeUnchanged(s);
    }
  }

  /** A `\r\n` pair becomes one `\n`, and the text on either side is normalised on its own. */
  lemma NormalizeCrLf(x: string, y: string)
    ensures NormalizeLineEndings(x + "\r\n" + y) ==
      NormalizeLineEndings(x) + "\n" + NormalizeLineEndings(y)
  {
    var t := "\r\n" + y;
    assert x + "\r\n" + y == x + t;
    ReplaceCrLfAppend(x, t);
    assert t[2..] == y;
    ReplaceCrAppend(ReplaceCrLf(x), "\n" + ReplaceCrLf(y));
    ReplaceCrAppend("\n", ReplaceCrLf(y));
  }

  /** A `\r` that no `\n` follows becomes `\n`, and the text on either side is normalised on
      its own. */
  lemma NormalizeLoneCr(x: string, y: string)
    requires |y| == 0 || y[0] != '\n'
    ensures NormalizeLineEndings(x + "\r" + y) ==
      NormalizeLineEndings(x) + "\n" + NormalizeLineEndings(y)
  {
    var t := "\r" + y;
    assert x + "\r" + y == x + t;
    ReplaceCrLfAppend(x, t);
    assert t[1..] == y;
    ReplaceCrAppend(ReplaceCrLf(x), "\r" + ReplaceCrLf(y));
    ReplaceCrAppend("\r", ReplaceCrLf(y));
  }

  /** `ReplaceCrLf` works piecewise unless the cut separates a `\r` from the `\n` after it. */
  lemma {:induction false} ReplaceCrLfAppend(x: string, y: string)
    requires !(|x| > 0 && x[|x| - 1] == '\r' && |y| > 0 && y[0] == '\n')
    ensures ReplaceCrLf(x + y) == ReplaceCrLf(x) + ReplaceCrLf(y)
    decreases |x|
  {
    var xy := x + y;
    if |x| == 0 {
      assert xy == y;
    } else if |x| >= 2 && x[0] == '\r' && x[1] == '\n' {
      assert xy[0] == x[0] && xy[1] == x[1] && xy[2..] == x[2..] + y;
      assert ReplaceCrLf(xy) == "\n" + ReplaceCrLf(x[2..] + y);
      assert |x[2..]| > 0 ==> x[2..][|x[2..]| - 1] == x[|x| - 1];
      ReplaceCrLfAppend(x[2..], y);
    } else {
      assert xy[0] == x[0] && xy[1..] == x[1..] + y;
      assert !(|xy| >= 2 && xy[0] == '\r' && xy[1] == '\n') by {
        if |x| >= 2 { assert xy[1] == x[1]; } else if |y| > 0 { assert xy[1] == y[0]; }
      }
      assert ReplaceCrLf(xy) == [x[0]] + ReplaceCrLf(x[1..] + y);
      assert |x[1..]| > 0 ==> x[1..][|x[1..]| - 1] == x[|x| - 1];
      ReplaceCrLfAppend(x[1..], y);
    }
  }

  lemma ReplaceCrAppend(x: string, y: string)
    ensures ReplaceCr(x + y) == ReplaceCr(x) + ReplaceCr(y)
  {
    var r := ReplaceCr(x + y);
    assert forall i :: 0 <= i < |x| ==> (x + y)[i] == x[i];
    assert forall i :: |x| <= i < |x| + |y| ==> (x + y)[i] == y[i - |x|];
  }

  lemma {:induction false} CrFreeUnchanged(s: string)
    requires '\r' !in s
    ensures ReplaceCrLf(s) == s && ReplaceCr(s) == s
    decreases |s|
  {
    if |s| > 0 {
      assert '\r' !in s[1..] by { forall c | c in s[1..] ensures c != '\r' { assert c in s; } }
      CrFreeUnchanged(s[1..]);
      assert [s[0]] + s[1..] == s;
    }
  }

  // ---------------------------------------------------------------------------
  // Collapsing runs of blank lines (line 56)
  // ---------------------------------------------------------------------------

  /** The first index at or after `i` whose line is not blank, or `|lines|`. */
  function BlankRunEnd(lines: seq<string>, i: nat): (k: nat)
    requires i <= |lines|
    ensures i <= k <= |lines|
    ensures forall j :: i <= j < k ==> IsBlank(lines[j])
    ensures k == |lines| || !IsBlank(lines[k])
    decreases |lines| - i
  {
    if i < |lines| && IsBlank(lines[i]) then BlankRunEnd(lines, i + 1) else i
  }

  /** Interior lines with every maximal run of two or more blank lines replaced by one
      empty line. */
  function CollapseInterior(xs: seq<string>): seq<string>
    decreases |xs|
  {
    if |xs| == 0 then []
    else if IsBlank(xs[0]) then
      var k := BlankRunEnd(xs, 0);
      (if k >= 2 then [""] else [xs[0]]) + CollapseInterior(xs[k..])
    else [xs[0]] + CollapseInterior(xs[1..])
  }

  /** `re.sub(r'\n\s*\n\s*\n+', '\n\n', text)`, stated on the lines of `text`. A match is
      whitespace only and runs from the first to the last newline of a stretch of
      whitespace holding at least three newlines, so the lines strictly inside it are two or
      more blank lines between the first and the last line of the text; the replacement
      leaves a single empty line there. */
  function CollapseBlankRuns(lines: seq<string>): (r: seq<string>)
    ensures |lines| >= 1 ==> |r| >= 1
  {
    if |lines| <= 2 then lines
    else [lines[0]] + CollapseInterior(lines[1..|lines| - 1]) + [lines[|lines| - 1]]
  }

  function CollapseBlankLines(text: string): string {
    Join(CollapseBlankRuns(SplitLines(text)))
  }

  // ---------------------------------------------------------------------------
  // Splitting on blank lines (line 59)
  // ---------------------------------------------------------------------------

  /** `re.split(r'\n\s*\n', text)`, stated on the lines of `text`: a separator runs from one
      newline to a later one across whitespace only, so it swallows a maximal run of blank
      lines that lie strictly between two newlines. The first line always opens the first
      piece, and the last line always closes the last one. */
  function SplitOnBlankLines(lines: seq<string>): (pieces: seq<seq<string>>)
    requires |lines| >= 1
    ensures |pieces| >= 1
    ensures forall p :: p in pieces ==> |p| >= 1
    decreases |lines|
  {
    if |lines| == 1 then [lines]
    else
      var k := BlankRunEnd(lines, 1);
      if k == 1 then
        var rest := SplitOnBlankLines(lines[1..]);
        [[lines[0]] + rest[0]] + rest[1..]
      else if k < |lines| then [[lines[0]]] + SplitOnBlankLines(lines[k..])
      else if |lines| >= 3 then [[lines[0]], [lines[|lines| - 1]]]
      else [lines]
  }

  /** `re.split(r'\n\s*\n', text.strip())`: the pieces as strings. */
  function Segments(text: string): (r: seq<string>)
    ensures |r| >= 1
  {
    var pieces := SplitOnBlankLines(SplitLines(Strip(text)));
    seq(|pieces|, k requires 0 <= k < |pieces| => Join(pieces[k]))
  }

  /** No line of `p` is blank. */
  predicate NoBlankLine(p: seq<string>) {
    forall j :: 0 <= j < |p| ==> !IsBlank(p[j])
  }

  /** Every line of `b` is blank. */
  predicate AllBlankLines(b: seq<string>) {
    forall j :: 0 <= j < |b| ==> IsBlank(b[j])
  }

  /** The pieces in order, with separator `seps[i]` between piece `i` and piece `i + 1`. */
  function Weave(pieces: seq<seq<string>>, seps: seq<seq<string>>): seq<string>
    requires |pieces| >= 1 && |seps| == |pieces| - 1
    decreases |pieces|
  {
    if |pieces| == 1 then pieces[0] else pieces[0] + seps[0] + Weave(pieces[1..], seps[1..])
  }

  lemma WeaveCons(x: string, pieces: seq<seq<string>>, seps: seq<seq<string>>)
    requires |pieces| >= 1 && |seps| == |pieces| - 1
    ensures Weave([[x] + pieces[0]] + pieces[1..], seps) == [x] + Weave(pieces, seps)
  {
    var ps := [[x] + pieces[0]] + pieces[1..];
    if |pieces| > 1 {
      assert ps[1..] == pieces[1..];
    }
  }

  /** `pieces` and `seps` woven together give `lines`; no piece holds a blank line and every
      separator is a non-empty run of blank lines. */
  predicate CutAtBlankRuns(lines: seq<string>, pieces: seq<seq<string>>, seps: seq<seq<string>>) {
    && |pieces| >= 1 && |seps| == |pieces| - 1
    && (forall i :: 0 <= i < |seps| ==> |seps[i]| >= 1 && AllBlankLines(seps[i]))
    && (forall i :: 0 <= i < |pieces| ==> NoBlankLine(pieces[i]))
    && lines == Weave(pieces, seps)
  }

  /** For lines that begin and end with a non-blank line, the split cuts at every maximal
      run of blank lines and nowhere else: no piece holds a blank line, and the lines are the
      pieces in order with a non-empty run of blank lines between each two. */
  lemma {:induction false} SplitCutsAtBlankRuns(lines: seq<string>) returns (seps: seq<seq<string>>)
    requires |lines| >= 1 && !IsBlank(lines[0]) && !IsBlank(lines[|lines| - 1])
    ensures CutAtBlankRuns(lines, SplitOnBlankLines(lines), seps)
    decreases |lines|
  {
    var n := |lines|;
    if n == 1 {
      seps := [];
    } else {
      var k := BlankRunEnd(lines, 1);
      assert k < n;
      var tail := lines[k..];
      assert tail[0] == lines[k] && tail[|tail| - 1] == lines[n - 1];
      var rest := SplitOnBlankLines(tail);
      var more := SplitCutsAtBlankRuns(tail);
      if k == 1 {
        seps := more;
        assert lines == [lines[0]] + tail;
        CutJoinFirst(lines[0], tail, rest, more);
      } else {
        seps := [lines[1..k]] + more;
        assert lines == [lines[0]] + lines[1..k] + tail;
        CutSeparator(lines[0], lines[1..k], tail, rest, more);
      }
    }
  }

  /** A non-blank line followed directly by the next piece joins that piece. */
  lemma CutJoinFirst(x: string, tail: seq<string>, rest: seq<seq<string>>, more: seq<seq<string>>)
    requires !IsBlank(x) && CutAtBlankRuns(tail, rest, more)
    ensures CutAtBlankRuns([x] + tail, [[x] + rest[0]] + rest[1..], more)
  {
    var first := [x] + rest[0];
    var pieces := [first] + rest[1..];
    assert NoBlankLine(first) by {
      forall j | 0 <= j < |first| ensures !IsBlank(first[j]) {
        if j > 0 { assert first[j] == rest[0][j - 1]; }
      }
    }
    forall i | 0 <= i < |pieces| ensures NoBlankLine(pieces[i]) {
      if i > 0 { assert pieces[i] == rest[i]; }
    }
    WeaveCons(x, rest, more);
  }

  /** A non-blank line followed by a run of blank lines is a piece of its own. */
  lemma CutSeparator(x: string, blanks: seq<string>, tail: seq<string>, rest: seq<seq<string>>,
                     more: seq<seq<string>>)
    requires !IsBlank(x) && |blanks| >= 1 && AllBlankLines(blanks)
    requires CutAtBlankRuns(tail, rest, more)
    ensures CutAtBlankRuns([x] + blanks + tail, [[x]] + rest, [blanks] + more)
  {
    var pieces := [[x]] + rest;
    var seps := [blanks] + more;
    assert pieces[1..] == rest && seps[1..] == more;
    forall i | 0 <= i < |pieces| ensures NoBlankLine(pieces[i]) {
      if i > 0 { assert pieces[i] == rest[i - 1]; }
    }
    forall i | 0 <= i < |seps| ensures |seps[i]| >= 1 && AllBlankLines(seps[i]) {
      if i > 0 { assert seps[i] == more[i - 1]; }
    }
  }

  /** The text that line 59 splits is stripped, so the cuts fall exactly at its runs of
      blank lines. */
  lemma SegmentCuts(text: string) returns (seps: seq<seq<string>>)
    requires !IsBlank(text)
    ensures var lines := SplitLines(Strip(text)); CutAtBlankRuns(lines, SplitOnBlankLines(lines), seps)
  {
    StripFacts(text);
    SplitLinesEnds(Strip(text));
    seps := SplitCutsAtBlankRuns(SplitLines(Strip(text)));
  }

  // ---------------------------------------------------------------------------
  // Collapsing blank runs changes no segment (lines 56 and 59)
  // ---------------------------------------------------------------------------

  /** The one blank line that a run of blank interior lines collapses to. */
  function CollapsedRun(run: seq<string>): string
    requires |run| >= 1
  {
    if |run| >= 2 then "" else run[0]
  }

  /** A run of blank lines from the second line up to line `k` splits the lines in three. */
  lemma RunDecompose(lines: seq<string>, k: nat)
    requires 2 <= k < |lines| && k == BlankRunEnd(lines, 1)
    ensures lines == [lines[0]] + lines[1..k] + lines[k..]
    ensures |lines[1..k]| >= 1 && AllBlankLines(lines[1..k])
    ensures |lines[k..]| >= 1 && !IsBlank(lines[k..][0])
  {
    var run := lines[1..k];
    forall j | 0 <= j < |run| ensures IsBlank(run[j]) { assert run[j] == lines[j + 1]; }
    assert lines[k..][0] == lines[k];
  }

  /** `BlankRunEnd` is the first non-blank index: any `j` after a run of blank lines that
      stops at a non-blank line or at the end is it. */
  lemma BlankRunEndIs(lines: seq<string>, i: nat, j: nat)
    requires i <= j <= |lines|
    requires forall m :: i <= m < j ==> IsBlank(lines[m])
    requires j == |lines| || !IsBlank(lines[j])
    ensures BlankRunEnd(lines, i) == j
  {
  }

  /** Collapsing keeps the first line. */
  lemma CollapseHead(lines: seq<string>)
    requires |lines| >= 1
    ensures |CollapseBlankRuns(lines)| >= 1 && CollapseBlankRuns(lines)[0] == lines[0]
  {
  }

  /** The interior collapsed, with the last line put back, is the collapse of a list that
      begins with a non-blank line. */
  lemma CollapseTail(ys: seq<string>)
    requires |ys| >= 1 && !IsBlank(ys[0])
    ensures CollapseInterior(ys[..|ys| - 1]) + [ys[|ys| - 1]] == CollapseBlankRuns(ys)
  {
    var m := |ys|;
    if m == 2 {
      assert ys[..1] == [ys[0]] && [ys[0]][1..] == [];
    } else if m >= 3 {
      var xs := ys[..m - 1];
      assert xs[0] == ys[0] && xs[1..] == ys[1..m - 1];
    }
  }

  /** A non-blank line after the first makes no difference to what precedes it. */
  lemma CollapseCons(a: string, ys: seq<string>)
    requires |ys| >= 1 && !IsBlank(ys[0])
    ensures CollapseBlankRuns([a] + ys) == [a] + CollapseBlankRuns(ys)
  {
    var lines := [a] + ys;
    var n := |lines|;
    if n >= 3 {
      assert lines[1..n - 1] == ys[..|ys| - 1] && lines[n - 1] == ys[|ys| - 1];
      CollapseTail(ys);
    }
  }

  lemma CollapseBlankRun(a: string, run: seq<string>, tail: seq<string>)
    requires |run| >= 1 && AllBlankLines(run) && |tail| >= 1 && !IsBlank(tail[0])
    ensures CollapseBlankRuns([a] + run + tail) == [a] + [CollapsedRun(run)] + CollapseBlankRuns(tail)
  {
    var init, last := tail[..|tail| - 1], tail[|tail| - 1];
    assert |init| > 0 ==> init[0] == tail[0];
    InteriorBlankRun(run, init);
    assert [a] + run + tail == [a] + (run + init) + [last];
    CollapseAround(a, run + init, last);
    CollapseTail(tail);
    Regroup(a, CollapsedRun(run), CollapseInterior(init), [last]);
  }

  /** A run of blank lines at the front of the interior becomes one line. */
  lemma InteriorBlankRun(run: seq<string>, rest: seq<string>)
    requires |run| >= 1 && AllBlankLines(run) && (|rest| == 0 || !IsBlank(rest[0]))
    ensures CollapseInterior(run + rest) == [CollapsedRun(run)] + CollapseInterior(rest)
  {
    var xs := run + rest;
    var r := |run|;
    assert forall m :: 0 <= m < r ==> xs[m] == run[m];
    assert r < |xs| ==> xs[r] == rest[0];
    BlankRunEndIs(xs, 0, r);
    InteriorRun(xs);
    assert xs[..r] == run && xs[r..] == rest;
  }

  lemma CollapseAround(a: string, mid: seq<string>, z: string)
    requires |mid| >= 1
    ensures CollapseBlankRuns([a] + mid + [z]) == [a] + CollapseInterior(mid) + [z]
  {
    var lines := [a] + mid + [z];
    assert lines[1..|lines| - 1] == mid;
    CollapseUnfold(lines);
  }

  lemma InteriorRun(xs: seq<string>)
    requires |xs| >= 1 && IsBlank(xs[0])
    ensures var d := BlankRunEnd(xs, 0);
      CollapseInterior(xs) == [CollapsedRun(xs[..d])] + CollapseInterior(xs[d..])
  {
  }

  lemma CollapseUnfold(lines: seq<string>)
    requires |lines| >= 3
    ensures CollapseBlankRuns(lines) ==
      [lines[0]] + CollapseInterior(lines[1..|lines| - 1]) + [lines[|lines| - 1]]
  {
  }

  lemma Regroup(a: string, b: string, xs: seq<string>, ys: seq<string>)
    ensures [a] + ([b] + xs) + ys == [a] + [b] + (xs + ys)
  {
  }

  /** Blank lines all the way after the first line collapse to one blank line before the
      last. */
  lemma CollapseAllBlank(lines: seq<string>)
    requires |lines| >= 3 && forall j :: 1 <= j < |lines| ==> IsBlank(lines[j])
    ensures CollapseBlankRuns(lines) ==
      [lines[0], CollapsedRun(lines[1..|lines| - 1]), lines[|lines| - 1]]
  {
    var n := |lines|;
    var mid := lines[1..n - 1];
    BlankRunEndIs(mid, 0, |mid|);
    assert mid[|mid|..] == [];
    assert CollapseInterior(mid) == [CollapsedRun(mid)];
    assert CollapseBlankRuns(lines) == [lines[0]] + [CollapsedRun(mid)] + [lines[n - 1]];
  }

  /** Line 56 changes no segment of line 59: a run of blank lines still separates the same
      two pieces once it is one line long. */
  lemma {:induction false} SplitCollapse(lines: seq<string>)
    requires |lines| >= 1
    ensures SplitOnBlankLines(CollapseBlankRuns(lines)) == SplitOnBlankLines(lines)
    decreases |lines|
  {
    var n := |lines|;
    if n <= 2 {
      assert CollapseBlankRuns(lines) == lines;
    } else {
      var k := BlankRunEnd(lines, 1);
      if k == 1 {
        SplitCollapse(lines[1..]);
        SplitCollapseLine(lines);
      } else if k < n {
        RunDecompose(lines, k);
        SplitCollapse(lines[k..]);
        SplitCollapseRun(lines[0], lines[1..k], lines[k..]);
      } else {
        CollapseAllBlank(lines);
        SplitAllBlank(lines);
        SplitAllBlank(CollapseBlankRuns(lines));
      }
    }
  }

  lemma SplitCollapseLine(lines: seq<string>)
    requires |lines| >= 2 && !IsBlank(lines[1])
    requires SplitOnBlankLines(CollapseBlankRuns(lines[1..])) == SplitOnBlankLines(lines[1..])
    ensures SplitOnBlankLines(CollapseBlankRuns(lines)) == SplitOnBlankLines(lines)
  {
    var ys := lines[1..];
    assert lines == [lines[0]] + ys;
    CollapseCons(lines[0], ys);
    CollapseHead(ys);
    SplitConsLine(lines[0], ys);
    SplitConsLine(lines[0], CollapseBlankRuns(ys));
  }

  lemma SplitCollapseRun(a: string, run: seq<string>, ys: seq<string>)
    requires |run| >= 1 && AllBlankLines(run) && |ys| >= 1 && !IsBlank(ys[0])
    requires SplitOnBlankLines(CollapseBlankRuns(ys)) == SplitOnBlankLines(ys)
    ensures SplitOnBlankLines(CollapseBlankRuns([a] + run + ys)) ==
      SplitOnBlankLines([a] + run + ys)
  {
    var b, c := CollapsedRun(run), CollapseBlankRuns(ys);
    assert IsBlank(b) by { assert run[0] == run[0]; }
    assert AllBlankLines([b]);
    CollapseBlankRun(a, run, ys);
    CollapseHead(ys);
    SplitConsRun(a, run, ys);
    SplitConsRun(a, [b], c);
  }

  /** A non-blank second line joins the first piece. */
  lemma SplitConsLine(a: string, ys: seq<string>)
    requires |ys| >= 1 && !IsBlank(ys[0])
    ensures var rest := SplitOnBlankLines(ys);
      SplitOnBlankLines([a] + ys) == [[a] + rest[0]] + rest[1..]
  {
    var lines := [a] + ys;
    assert lines[1..] == ys;
    BlankRunEndIs(lines, 1, 1);
  }

  /** A run of blank lines after the first line cuts it off as a piece of its own. */
  lemma SplitConsRun(a: string, run: seq<string>, ys: seq<string>)
    requires |run| >= 1 && AllBlankLines(run) && |ys| >= 1 && !IsBlank(ys[0])
    ensures SplitOnBlankLines([a] + run + ys) == [[a]] + SplitOnBlankLines(ys)
  {
    var lines := [a] + run + ys;
    var k := |run| + 1;
    assert lines[k..] == ys && lines[k] == ys[0];
    assert forall m :: 1 <= m < k ==> lines[m] == run[m - 1];
    BlankRunEndIs(lines, 1, k);
  }

  /** When every line after the first is blank, the first and the last line are the two
      pieces. */
  lemma SplitAllBlank(lines: seq<string>)
    requires |lines| >= 3 && forall j :: 1 <= j < |lines| ==> IsBlank(lines[j])
    ensures SplitOnBlankLines(lines) == [[lines[0]], [lines[|lines| - 1]]]
  {
    BlankRunEndIs(lines, 1, |lines|);
  }

  /** The lines of `text.strip()` when `lines` are the lines of `text`: leading blank lines
      go and the first line left is trimmed on the left... */
  function TrimLeadingLines(lines: seq<string>): (r: seq<string>)
    requires |lines| >= 1
    ensures 1 <= |r| <= |lines|
    decreases |lines|
  {
    if |lines| > 1 && IsBlank(lines[0]) then TrimLeadingLines(lines[1..])
    else [TrimLeft(lines[0])] + lines[1..]
  }

  /** ... and trailing blank lines go and the last line left is trimmed on the right. */
  function TrimTrailingLines(lines: seq<string>): (r: seq<string>)
    requires |lines| >= 1
    ensures 1 <= |r| <= |lines|
    ensures r[0] == lines[0] || r[0] == TrimRight(lines[0])
    decreases |lines|
  {
    if |lines| == 1 || AllBlankLines(lines[1..]) then [TrimRight(lines[0])]
    else [lines[0]] + TrimTrailingLines(lines[1..])
  }

  function StripLines(lines: seq<string>): seq<string>
    requires |lines| >= 1
  {
    TrimTrailingLines(TrimLeadingLines(lines))
  }

  /** Joined lines are blank exactly when every line is. */
  lemma {:induction false} BlankJoin(lines: seq<string>)
    requires |lines| >= 1
    ensures IsBlank(Join(lines)) <==> AllBlankLines(lines)
    decreases |lines|
  {
    if |lines| > 1 {
      var rest := lines[1..];
      BlankJoin(rest);
      BlankConcat(lines[0], "\n" + Join(rest));
      BlankConcat("\n", Join(rest));
      assert Join(lines) == lines[0] + ("\n" + Join(rest));
      assert AllBlankLines(lines) <==> IsBlank(lines[0]) && AllBlankLines(rest) by {
        assert forall j :: 1 <= j < |lines| ==> lines[j] == rest[j - 1];
      }
    }
  }

  lemma {:induction false} JoinTrimLeading(lines: seq<string>)
    requires |lines| >= 1
    ensures Join(TrimLeadingLines(lines)) == TrimLeft(Join(lines))
    decreases |lines|
  {
    if |lines| > 1 {
      var rest := lines[1..];
      var sep := lines[0] + "\n";
      assert Join(lines) == sep + Join(rest);
      if IsBlank(lines[0]) {
        BlankConcat(lines[0], "\n");
        TrimLeftBlankPrefix(sep, Join(rest));
        JoinTrimLeading(rest);
      } else {
        var r := TrimLeadingLines(lines);
        assert r[0] == TrimLeft(lines[0]) && r[1..] == rest;
        TrimLeftNonBlank(lines[0], "\n" + Join(rest));
        assert Join(lines) == lines[0] + ("\n" + Join(rest));
      }
    }
  }

  lemma {:induction false} JoinTrimTrailing(lines: seq<string>)
    requires |lines| >= 1
    ensures Join(TrimTrailingLines(lines)) == TrimRight(Join(lines))
    decreases |lines|
  {
    if |lines| > 1 {
      var rest := lines[1..];
      BlankJoin(rest);
      BlankConcat("\n", Join(rest));
      assert Join(lines) == lines[0] + ("\n" + Join(rest));
      if AllBlankLines(rest) {
        TrimRightBlankSuffix(lines[0], "\n" + Join(rest));
      } else {
        var t := TrimTrailingLines(rest);
        JoinTrimTrailing(rest);
        TrimRightNonBlank(lines[0] + "\n", Join(rest));
        assert Join(lines) == (lines[0] + "\n") + Join(rest);
        assert ([lines[0]] + t)[1..] == t;
      }
    }
  }

  lemma {:induction false} TrimLeadingNoNewlines(lines: seq<string>)
    requires |lines| >= 1 && NoNewlines(lines)
    ensures NoNewlines(TrimLeadingLines(lines))
    decreases |lines|
  {
    if |lines| > 1 && IsBlank(lines[0]) {
      NoNewlinesSuffix(lines, 1);
      TrimLeadingNoNewlines(lines[1..]);
    } else {
      TrimKeepsNoNewline(lines[0]);
      var r := TrimLeadingLines(lines);
      assert forall j :: 1 <= j < |r| ==> r[j] == lines[j];
    }
  }

  lemma {:induction false} TrimTrailingNoNewlines(lines: seq<string>)
    requires |lines| >= 1 && NoNewlines(lines)
    ensures NoNewlines(TrimTrailingLines(lines))
    decreases |lines|
  {
    if |lines| == 1 || AllBlankLines(lines[1..]) {
      TrimKeepsNoNewline(lines[0]);
    } else {
      NoNewlinesSuffix(lines, 1);
      TrimTrailingNoNewlines(lines[1..]);
      var r := TrimTrailingLines(lines);
      assert forall j :: 1 <= j < |r| ==> r[j] == TrimTrailingLines(lines[1..])[j - 1];
    }
  }

  /** The lines of the stripped text are the stripped lines. */
  lemma StripJoinLines(lines: seq<string>)
    requires |lines| >= 1 && NoNewlines(lines)
    ensures SplitLines(Strip(Join(lines))) == StripLines(lines)
  {
    var l := TrimLeadingLines(lines);
    JoinTrimLeading(lines);
    JoinTrimTrailing(l);
    TrimLeadingNoNewlines(lines);
    TrimTrailingNoNewlines(l);
    SplitJoin(StripLines(lines));
  }

  lemma {:induction false} TrimLeadingBlank(b: seq<string>, ys: seq<string>)
    requires AllBlankLines(b) && |ys| >= 1
    ensures TrimLeadingLines(b + ys) == TrimLeadingLines(ys)
    decreases |b|
  {
    if |b| == 0 {
      assert b + ys == ys;
    } else {
      assert (b + ys)[0] == b[0] && (b + ys)[1..] == b[1..] + ys;
      assert AllBlankLines(b[1..]) by {
        forall j | 0 <= j < |b[1..]| ensures IsBlank(b[1..][j]) { assert b[1..][j] == b[j + 1]; }
      }
      TrimLeadingBlank(b[1..], ys);
    }
  }

  lemma {:induction false} TrimTrailingPrefix(b: seq<string>, ys: seq<string>)
    requires |ys| >= 1 && !IsBlank(ys[0])
    ensures TrimTrailingLines(b + ys) == b + TrimTrailingLines(ys)
    decreases |b|
  {
    if |b| == 0 {
      assert b + ys == ys;
    } else {
      var t := b + ys;
      assert t[0] == b[0] && t[1..] == b[1..] + ys;
      assert t[|b|] == ys[0];
      assert !AllBlankLines(t[1..]) by { assert t[1..][|b| - 1] == ys[0]; }
      TrimTrailingPrefix(b[1..], ys);
      assert [b[0]] + (b[1..] + TrimTrailingLines(ys)) == b + TrimTrailingLines(ys);
    }
  }

  /** Leading blank lines make no difference to what trimming on the left leaves. */
  lemma TrimLeadingSkip(lines: seq<string>, k: nat)
    requires k < |lines| && forall j :: 0 <= j < k ==> IsBlank(lines[j])
    ensures TrimLeadingLines(lines) == TrimLeadingLines(lines[k..])
  {
    assert lines == lines[..k] + lines[k..];
    TrimLeadingBlank(lines[..k], lines[k..]);
  }

  /** Lines before a non-blank line are kept by trimming on the right. */
  lemma TrimTrailingSkip(lines: seq<string>, k: nat)
    requires k < |lines| && !IsBlank(lines[k])
    ensures TrimTrailingLines(lines) == lines[..k] + TrimTrailingLines(lines[k..])
  {
    assert lines == lines[..k] + lines[k..];
    TrimTrailingPrefix(lines[..k], lines[k..]);
  }

  /** Stripping on the left commutes with collapsing blank runs. */
  lemma {:induction false} LeadingCollapse(lines: seq<string>)
    requires |lines| >= 1
    ensures TrimLeadingLines(CollapseBlankRuns(lines)) == CollapseBlankRuns(TrimLeadingLines(lines))
    decreases |lines|
  {
    var n := |lines|;
    if n <= 2 {
      CollapseShort(lines);
    } else if !IsBlank(lines[0]) {
      LeadingCollapseVisible(lines);
    } else {
      var k := BlankRunEnd(lines, 1);
      if k < n {
        LeadingCollapse(lines[k..]);
        LeadingCollapseAfter(lines, k);
      } else {
        LeadingCollapseAllBlank(lines);
      }
    }
  }

  /** Collapsing leaves one or two lines alone. */
  lemma CollapseShort(lines: seq<string>)
    requires 1 <= |lines| <= 2
    ensures CollapseBlankRuns(lines) == lines
    ensures CollapseBlankRuns(TrimLeadingLines(lines)) == TrimLeadingLines(lines)
    ensures CollapseBlankRuns(TrimTrailingLines(lines)) == TrimTrailingLines(lines)
  {
  }

  lemma LeadingCollapseAfter(lines: seq<string>, k: nat)
    requires |lines| >= 3 && IsBlank(lines[0]) && k == BlankRunEnd(lines, 1) && k < |lines|
    requires TrimLeadingLines(CollapseBlankRuns(lines[k..])) ==
      CollapseBlankRuns(TrimLeadingLines(lines[k..]))
    ensures TrimLeadingLines(CollapseBlankRuns(lines)) ==
      CollapseBlankRuns(TrimLeadingLines(lines))
  {
    if k == 1 {
      LeadingCollapseAfterLine(lines);
    } else {
      LeadingCollapseAfterRun(lines, k);
    }
  }

  lemma LeadingCollapseAfterLine(lines: seq<string>)
    requires |lines| >= 2 && !IsBlank(lines[1]) && IsBlank(lines[0])
    requires TrimLeadingLines(CollapseBlankRuns(lines[1..])) ==
      CollapseBlankRuns(TrimLeadingLines(lines[1..]))
    ensures TrimLeadingLines(CollapseBlankRuns(lines)) ==
      CollapseBlankRuns(TrimLeadingLines(lines))
  {
    var ys := lines[1..];
    assert lines == [lines[0]] + ys;
    LeadingCollapseLine(lines[0], ys);
  }

  lemma LeadingCollapseAfterRun(lines: seq<string>, k: nat)
    requires 2 <= k < |lines| && k == BlankRunEnd(lines, 1) && IsBlank(lines[0])
    requires TrimLeadingLines(CollapseBlankRuns(lines[k..])) ==
      CollapseBlankRuns(TrimLeadingLines(lines[k..]))
    ensures TrimLeadingLines(CollapseBlankRuns(lines)) ==
      CollapseBlankRuns(TrimLeadingLines(lines))
  {
    RunDecompose(lines, k);
    LeadingCollapseRun(lines[0], lines[1..k], lines[k..]);
  }


  lemma LeadingCollapseVisible(lines: seq<string>)
    requires |lines| >= 3 && !IsBlank(lines[0])
    ensures TrimLeadingLines(CollapseBlankRuns(lines)) == CollapseBlankRuns(TrimLeadingLines(lines))
  {
    var c := CollapseBlankRuns(lines);
    CollapseHead(lines);
    TrimLeadingVisible(c);
    TrimLeadingVisible(lines);
    CollapseFirstReplaced(lines, TrimLeft(lines[0]));
  }

  lemma TrimLeadingVisible(lines: seq<string>)
    requires |lines| >= 1 && !IsBlank(lines[0])
    ensures TrimLeadingLines(lines) == [TrimLeft(lines[0])] + lines[1..]
  {
  }

  /** Collapsing leaves the first line as it is, whatever it is. */
  lemma CollapseFirstReplaced(lines: seq<string>, a: string)
    requires |lines| >= 1
    ensures CollapseBlankRuns([a] + lines[1..]) == [a] + CollapseBlankRuns(lines)[1..]
  {
    var t := [a] + lines[1..];
    var n := |lines|;
    if n >= 3 {
      CollapseUnfold(lines);
      CollapseUnfold(t);
      assert t[1..n - 1] == lines[1..n - 1] && t[n - 1] == lines[n - 1];
    } else {
      assert CollapseBlankRuns(lines) == lines && CollapseBlankRuns(t) == t;
    }
  }

  lemma LeadingCollapseLine(a: string, ys: seq<string>)
    requires IsBlank(a) && |ys| >= 1 && !IsBlank(ys[0])
    requires TrimLeadingLines(CollapseBlankRuns(ys)) == CollapseBlankRuns(TrimLeadingLines(ys))
    ensures TrimLeadingLines(CollapseBlankRuns([a] + ys)) ==
      CollapseBlankRuns(TrimLeadingLines([a] + ys))
  {
    var cy := CollapseBlankRuns(ys);
    assert AllBlankLines([a]);
    CollapseCons(a, ys);
    TrimLeadingBlank([a], cy);
    TrimLeadingBlank([a], ys);
  }

  lemma LeadingCollapseRun(a: string, run: seq<string>, ys: seq<string>)
    requires IsBlank(a) && |run| >= 1 && AllBlankLines(run) && |ys| >= 1 && !IsBlank(ys[0])
    requires TrimLeadingLines(CollapseBlankRuns(ys)) == CollapseBlankRuns(TrimLeadingLines(ys))
    ensures TrimLeadingLines(CollapseBlankRuns([a] + run + ys)) ==
      CollapseBlankRuns(TrimLeadingLines([a] + run + ys))
  {
    var cy := CollapseBlankRuns(ys);
    BlankPrefixLines(a, run);
    CollapseBlankRun(a, run, ys);
    TrimLeadingBlank([a] + [CollapsedRun(run)], cy);
    TrimLeadingBlank([a] + run, ys);
  }

  lemma BlankPrefixLines(a: string, run: seq<string>)
    requires IsBlank(a) && |run| >= 1 && AllBlankLines(run)
    ensures AllBlankLines([a] + run) && AllBlankLines([a] + [CollapsedRun(run)])
  {
    assert IsBlank(run[0]);
    forall j | 0 <= j < |run| + 1 ensures IsBlank(([a] + run)[j]) {
      if j > 0 { assert ([a] + run)[j] == run[j - 1]; }
    }
  }

  lemma LeadingCollapseAllBlank(lines: seq<string>)
    requires |lines| >= 3 && forall j :: 1 <= j < |lines| ==> IsBlank(lines[j])
    requires IsBlank(lines[0])
    ensures TrimLeadingLines(CollapseBlankRuns(lines)) == CollapseBlankRuns(TrimLeadingLines(lines))
  {
    TrimLeadingCollapsedAllBlank(lines);
    CollapseTrimLeadingAllBlank(lines);
  }

  lemma TrimLeadingCollapsedAllBlank(lines: seq<string>)
    requires |lines| >= 3 && forall j :: 1 <= j < |lines| ==> IsBlank(lines[j])
    requires IsBlank(lines[0])
    ensures TrimLeadingLines(CollapseBlankRuns(lines)) == [TrimLeft(lines[|lines| - 1])]
  {
    var mid := lines[1..|lines| - 1];
    CollapseAllBlank(lines);
    InteriorAllBlank(lines);
    CollapsedRunBlank(mid);
    TrimLeadingTwoBlank(lines[0], CollapsedRun(mid), lines[|lines| - 1]);
  }

  lemma CollapseTrimLeadingAllBlank(lines: seq<string>)
    requires |lines| >= 3 && forall j :: 1 <= j < |lines| ==> IsBlank(lines[j])
    requires IsBlank(lines[0])
    ensures CollapseBlankRuns(TrimLeadingLines(lines)) == [TrimLeft(lines[|lines| - 1])]
  {
    TrimLeadingLast(lines);
    CollapseShort([TrimLeft(lines[|lines| - 1])]);
  }

  lemma InteriorAllBlank(lines: seq<string>)
    requires |lines| >= 3 && forall j :: 1 <= j < |lines| ==> IsBlank(lines[j])
    ensures AllBlankLines(lines[1..|lines| - 1])
  {
    var mid := lines[1..|lines| - 1];
    forall j | 0 <= j < |mid| ensures IsBlank(mid[j]) { assert mid[j] == lines[j + 1]; }
  }

  lemma CollapsedRunBlank(run: seq<string>)
    requires |run| >= 1 && AllBlankLines(run)
    ensures IsBlank(CollapsedRun(run))
  {
    assert IsBlank(run[0]);
  }

  lemma TrimLeadingTwoBlank(a: string, b: string, z: string)
    requires IsBlank(a) && IsBlank(b)
    ensures TrimLeadingLines([a, b, z]) == [TrimLeft(z)]
  {
    TrimLeadingLast([a, b, z]);
  }

  /** When every line but the last is blank, trimming on the left leaves only the last
      line, itself trimmed on the left. */
  lemma TrimLeadingLast(lines: seq<string>)
    requires |lines| >= 1 && forall j :: 0 <= j < |lines| - 1 ==> IsBlank(lines[j])
    ensures TrimLeadingLines(lines) == [TrimLeft(lines[|lines| - 1])]
  {
    var n := |lines|;
    TrimLeadingSkip(lines, n - 1);
    assert lines[n - 1..] == [lines[n - 1]];
  }

  /** Stripping on the right commutes with collapsing blank runs. */
  lemma {:induction false} TrailingCollapse(lines: seq<string>)
    requires |lines| >= 1
    ensures TrimTrailingLines(CollapseBlankRuns(lines)) ==
      CollapseBlankRuns(TrimTrailingLines(lines))
    decreases |lines|
  {
    var n := |lines|;
    if n <= 2 {
      CollapseShort(lines);
    } else if AllBlankLines(lines[1..]) {
      TrailingCollapseAllBlank(lines);
    } else {
      var k := BlankRunEnd(lines, 1);
      assert k < n;
      TrailingCollapse(lines[k..]);
      TrailingCollapseAfter(lines, k);
    }
  }

  lemma TrailingCollapseAfter(lines: seq<string>, k: nat)
    requires 1 <= k < |lines| && k == BlankRunEnd(lines, 1)
    requires TrimTrailingLines(CollapseBlankRuns(lines[k..])) ==
      CollapseBlankRuns(TrimTrailingLines(lines[k..]))
    ensures TrimTrailingLines(CollapseBlankRuns(lines)) ==
      CollapseBlankRuns(TrimTrailingLines(lines))
  {
    if k == 1 {
      TrailingCollapseAfterLine(lines);
    } else {
      TrailingCollapseAfterRun(lines, k);
    }
  }

  lemma TrailingCollapseAfterLine(lines: seq<string>)
    requires |lines| >= 2 && !IsBlank(lines[1])
    requires TrimTrailingLines(CollapseBlankRuns(lines[1..])) ==
      CollapseBlankRuns(TrimTrailingLines(lines[1..]))
    ensures TrimTrailingLines(CollapseBlankRuns(lines)) ==
      CollapseBlankRuns(TrimTrailingLines(lines))
  {
    var ys := lines[1..];
    assert lines == [lines[0]] + ys;
    TrailingCollapseLine(lines[0], ys);
  }

  lemma TrailingCollapseAfterRun(lines: seq<string>, k: nat)
    requires 2 <= k < |lines| && k == BlankRunEnd(lines, 1)
    requires TrimTrailingLines(CollapseBlankRuns(lines[k..])) ==
      CollapseBlankRuns(TrimTrailingLines(lines[k..]))
    ensures TrimTrailingLines(CollapseBlankRuns(lines)) ==
      CollapseBlankRuns(TrimTrailingLines(lines))
  {
    RunDecompose(lines, k);
    TrailingCollapseRun(lines[0], lines[1..k], lines[k..]);
  }


  lemma TrailingCollapseAllBlank(lines: seq<string>)
    requires |lines| >= 3 && AllBlankLines(lines[1..])
    ensures TrimTrailingLines(CollapseBlankRuns(lines)) ==
      CollapseBlankRuns(TrimTrailingLines(lines))
  {
    var n := |lines|;
    assert forall j :: 1 <= j < n ==> IsBlank(lines[j]) by {
      forall j | 1 <= j < n ensures IsBlank(lines[j]) { assert lines[j] == lines[1..][j - 1]; }
    }
    CollapseAllBlank(lines);
    var c := CollapseBlankRuns(lines);
    assert AllBlankLines(c[1..]);
  }

  lemma TrailingCollapseLine(a: string, ys: seq<string>)
    requires |ys| >= 1 && !IsBlank(ys[0])
    requires TrimTrailingLines(CollapseBlankRuns(ys)) == CollapseBlankRuns(TrimTrailingLines(ys))
    ensures TrimTrailingLines(CollapseBlankRuns([a] + ys)) ==
      CollapseBlankRuns(TrimTrailingLines([a] + ys))
  {
    var t, cy := TrimTrailingLines(ys), CollapseBlankRuns(ys);
    assert !IsBlank(t[0]) by { TrimRightFacts(ys[0]); }
    CollapseHead(ys);
    CollapseCons(a, ys);
    TrimTrailingPrefix([a], cy);
    TrimTrailingPrefix([a], ys);
    CollapseCons(a, t);
  }

  lemma TrailingCollapseRun(a: string, run: seq<string>, ys: seq<string>)
    requires |run| >= 1 && AllBlankLines(run) && |ys| >= 1 && !IsBlank(ys[0])
    requires TrimTrailingLines(CollapseBlankRuns(ys)) == CollapseBlankRuns(TrimTrailingLines(ys))
    ensures TrimTrailingLines(CollapseBlankRuns([a] + run + ys)) ==
      CollapseBlankRuns(TrimTrailingLines([a] + run + ys))
  {
    var t, cy := TrimTrailingLines(ys), CollapseBlankRuns(ys);
    var b := CollapsedRun(run);
    assert !IsBlank(t[0]) by { TrimRightFacts(ys[0]); }
    CollapseHead(ys);
    CollapseBlankRun(a, run, ys);
    TrimTrailingPrefix([a] + [b], cy);
    TrimTrailingPrefix([a] + run, ys);
    CollapseBlankRun(a, run, t);
  }

  /** Stripping the text commutes with collapsing blank runs. */
  lemma StripCollapse(lines: seq<string>)
    requires |lines| >= 1
    ensures StripLines(CollapseBlankRuns(lines)) == CollapseBlankRuns(StripLines(lines))
  {
    LeadingCollapse(lines);
    TrailingCollapse(TrimLeadingLines(lines));
  }

  /** Line 56 changes no segment: splitting the prepared text gives the same segments as
      splitting the text with only its line endings normalised. */
  lemma SegmentsIgnoreCollapse(input: string)
    ensures Segments(PreparedText(input)) == Segments(NormalizeLineEndings(input))
  {
    var t := NormalizeLineEndings(input);
    var lines := SplitLines(t);
    var c := CollapseBlankRuns(lines);
    CollapseNoNewlines(lines);
    StripJoinLines(c);
    JoinSplit(t);
    StripJoinLines(lines);
    StripCollapse(lines);
    SplitCollapse(StripLines(lines));
  }

  // ---------------------------------------------------------------------------
  // Cleaning and merging segments (lines 65-88)
  // ---------------------------------------------------------------------------

  /** `[line.strip() for line in lines if line.strip()]`. */
  function CleanLines(lines: seq<string>): (r: seq<string>)
  {
    if |lines| == 0 then []
    else (if Strip(lines[0]) != "" then [Strip(lines[0])] else []) + CleanLines(lines[1..])
  }

  /** Every cleaned line is non-empty and stripped, and has no newline when the input
      lines had none. */
  lemma {:induction false} CleanLinesShape(lines: seq<string>)
    ensures forall k :: 0 <= k < |CleanLines(lines)| ==>
      CleanLines(lines)[k] != "" && IsStripped(CleanLines(lines)[k])
    ensures NoNewlines(lines) ==> NoNewlines(CleanLines(lines))
    decreases |lines|
  {
    if |lines| > 0 {
      CleanLinesShape(lines[1..]);
      StripFacts(lines[0]);
      if NoNewlines(lines) {
        StripKeepsOut(lines[0], '\n');
        assert NoNewlines(lines[1..]) by {
          forall j | 0 <= j < |lines| - 1 ensures '\n' !in lines[1..][j] { assert lines[1..][j] == lines[j + 1]; }
        }
      }
    }
  }

  /** The name markers tried at line 73, in order. */
  const NameMarkers: seq<string> := ["নাম", "name", "nam", "আপনার নাম"]

  /** `re.match(r'^(নাম|name|nam|আপনার নাম)', line, re.IGNORECASE)`. */
  predicate StartsWithNameMarker(line: string) {
    exists m | m in NameMarkers :: StartsWithIgnoreCase(line, m)
  }

  /** `any(... for line in lines[:2])`: one of the first two lines begins with a marker. */
  predicate OpensCustomer(lines: seq<string>) {
    (|lines| >= 1 && StartsWithNameMarker(lines[0])) || (|lines| >= 2 && StartsWithNameMarker(lines[1]))
  }

  /** One turn of the loop over the cleaned segments: an empty segment is skipped; a segment
      that opens a customer starts a new block unless there is none yet; any other segment is
      appended to the last block. */
  function MergeInto(prev: seq<seq<string>>, s: seq<string>): seq<seq<string>> {
    if |s| == 0 then prev
    else if OpensCustomer(s) && |prev| > 0 then prev + [s]
    else if |prev| == 0 then [s]
    else prev[..|prev| - 1] + [prev[|prev| - 1] + s]
  }

  /** The whole loop: the lines of each block, in order. */
  function MergeSegments(segs: seq<seq<string>>): (blocks: seq<seq<string>>)
    decreases |segs|
  {
    if |segs| == 0 then [] else MergeInto(MergeSegments(segs[..|segs| - 1]), segs[|segs| - 1])
  }

  /** `'\n'.join(block)` for every block, in order. */
  function JoinEach(blocks: seq<seq<string>>): (r: seq<string>)
    ensures |r| == |blocks|
    ensures forall k :: 0 <= k < |r| ==> r[k] == Join(blocks[k])
  {
    if |blocks| == 0 then [] else JoinEach(blocks[..|blocks| - 1]) + [Join(blocks[|blocks| - 1])]
  }

  /** The text the loop works on: line endings normalised, blank runs collapsed. */
  function PreparedText(input: string): string {
    CollapseBlankLines(NormalizeLineEndings(input))
  }

  /** The cleaned lines of every segment, in order. */
  function CleanSegments(input: string): (segs: seq<seq<string>>) {
    var pieces := Segments(PreparedText(input));
    seq(|pieces|, k requires 0 <= k < |pieces| => CleanLines(SplitLines(pieces[k])))
  }

  /** The lines of each customer block, in order. */
  function BlockLines(input: string): seq<seq<string>> {
    MergeSegments(CleanSegments(input))
  }

  /** What `extract_customer_blocks` returns, including the fallback of lines 91-92. */
  function CustomerBlocks(input: string): seq<string> {
    var blocks := JoinEach(BlockLines(input));
    if |blocks| == 0 && Strip(input) != "" then [Strip(input)] else blocks
  }

  /** The loop state `(customer_blocks, current_block)` stands for the blocks `m`: every
      block but the last is already joined, the last one is still being collected. */
  predicate Assembled(done: seq<string>, current: seq<string>, m: seq<seq<string>>) {
    if |m| == 0 then current == [] && done == []
    else |current| > 0 && current == m[|m| - 1] && done == JoinEach(m[..|m| - 1])
  }

  lemma MergeStep(segs: seq<seq<string>>, i: nat)
    requires i < |segs|
    ensures MergeSegments(segs[..i + 1]) == MergeInto(MergeSegments(segs[..i]), segs[i])
  {
    assert segs[..i + 1][..i] == segs[..i];
  }

  lemma JoinEachSnoc(blocks: seq<seq<string>>, b: seq<string>)
    ensures JoinEach(blocks + [b]) == JoinEach(blocks) + [Join(b)]
  {
    assert (blocks + [b])[..|blocks|] == blocks;
  }

  /** The three ways one turn of the loop changes its state keep it in step with
      `MergeSegments`. */
  lemma AssembleNewBlock(done: seq<string>, current: seq<string>, m: seq<seq<string>>, s: seq<string>)
    requires Assembled(done, current, m) && |current| > 0 && |s| > 0
    ensures Assembled(done + [Join(current)], s, m + [s])
  {
    assert (m + [s])[..|m|] == m;
    JoinEachSnoc(m[..|m| - 1], m[|m| - 1]);
    assert m[..|m| - 1] + [m[|m| - 1]] == m;
  }

  lemma AssembleExtend(done: seq<string>, current: seq<string>, m: seq<seq<string>>, s: seq<string>)
    requires Assembled(done, current, m) && |current| > 0
    ensures Assembled(done, current + s, m[..|m| - 1] + [m[|m| - 1] + s])
  {
    assert m[..|m| - 1] == (m[..|m| - 1] + [m[|m| - 1] + s])[..|m| - 1];
  }

  lemma AssembleFirst(done: seq<string>, current: seq<string>, m: seq<seq<string>>, s: seq<string>)
    requires Assembled(done, current, m) && |current| == 0 && |s| > 0
    ensures Assembled(done, s, [s])
  {
  }

  lemma AssembleEnd(done: seq<string>, current: seq<string>, m: seq<seq<string>>)
    requires Assembled(done, current, m)
    ensures (if |current| > 0 then done + [Join(current)] else done) == JoinEach(m)
  {
    if |m| > 0 {
      JoinEachSnoc(m[..|m| - 1], m[|m| - 1]);
      assert m[..|m| - 1] + [m[|m| - 1]] == m;
    }
  }

  /** One turn of the loop over segment `i`, in each of its four outcomes. */
  lemma MergeTurn(done: seq<string>, current: seq<string>, segs: seq<seq<string>>, i: nat)
    requires i < |segs| && Assembled(done, current, MergeSegments(segs[..i]))
    ensures var s := segs[i]; var m' := MergeSegments(segs[..i + 1]);
      && (|s| == 0 ==> Assembled(done, current, m'))
      && (|s| > 0 && OpensCustomer(s) && |current| > 0 ==> Assembled(done + [Join(current)], s, m'))
      && (|s| > 0 && !OpensCustomer(s) && |current| > 0 ==> Assembled(done, current + s, m'))
      && (|s| > 0 && |current| == 0 ==> Assembled(done, s, m'))
  {
    var m := MergeSegments(segs[..i]);
    var s := segs[i];
    MergeStep(segs, i);
    if |s| > 0 {
      if |current| > 0 {
        if OpensCustomer(s) {
          AssembleNewBlock(done, current, m, s);
        } else {
          AssembleExtend(done, current, m, s);
        }
      } else {
        AssembleFirst(done, current, m, s);
      }
    }
  }

  lemma CleanSegmentAt(input: string, i: nat)
    requires i < |Segments(PreparedText(input))|
    ensures |CleanSegments(input)| == |Segments(PreparedText(input))|
    ensures CleanSegments(input)[i] == CleanLines(SplitLines(Segments(PreparedText(input))[i]))
  {
  }

  method ExtractCustomerBlocks(inputText: string) returns (customerBlocks: seq<string>)
    ensures customerBlocks == CustomerBlocks(inputText)
  {
    var normalizedText := NormalizeLineEndings(inputText);
    normalizedText := CollapseBlankLines(normalizedText);
    var blocks := Segments(normalizedText);
    ghost var segs := CleanSegments(inputText);
    CleanSegmentAt(inputText, 0);

    customerBlocks := [];
    var currentBlock: seq<string> := [];
    for i := 0 to |blocks|
      invariant Assembled(customerBlocks, currentBlock, MergeSegments(segs[..i]))
    {
      var lines := CleanLines(SplitLines(blocks[i]));
      CleanSegmentAt(inputText, i);
      MergeTurn(customerBlocks, currentBlock, segs, i);
      if |lines| == 0 {
        continue;
      }
      var startsWithName := OpensCustomer(lines);
      if startsWithName && |currentBlock| > 0 {
        customerBlocks := customerBlocks + [Join(currentBlock)];
        currentBlock := lines;
      } else {
        if |currentBlock| > 0 {
          currentBlock := currentBlock + lines;
        } else {
          currentBlock := lines;
        }
      }
    }
    assert segs[..|blocks|] == segs;
    AssembleEnd(customerBlocks, currentBlock, MergeSegments(segs));
    assert MergeSegments(segs) == BlockLines(inputText);
    if |currentBlock| > 0 {
      customerBlocks := customerBlocks + [Join(currentBlock)];
    }
    if |customerBlocks| == 0 && Strip(inputText) != "" {
      customerBlocks := [Strip(inputText)];
    }
  }

  // ---------------------------------------------------------------------------
  // What the segmentation keeps: the non-blank lines, stripped, in order
  // ---------------------------------------------------------------------------

  lemma {:induction false} CleanLinesAppend(a: seq<string>, b: seq<string>)
    ensures CleanLines(a + b) == CleanLines(a) + CleanLines(b)
    decreases |a|
  {
    if |a| == 0 {
      assert a + b == b;
    } else {
      assert (a + b)[0] == a[0] && (a + b)[1..] == a[1..] + b;
      CleanLinesAppend(a[1..], b);
    }
  }

  /** Cleaning drops a list entirely exactly when every line of it is blank. */
  lemma {:induction false} CleanLinesEmpty(lines: seq<string>)
    ensures CleanLines(lines) == [] <==> forall k :: 0 <= k < |lines| ==> IsBlank(lines[k])
    decreases |lines|
  {
    if |lines| > 0 {
      CleanLinesEmpty(lines[1..]);
      StripFacts(lines[0]);
      assert forall k :: 1 <= k < |lines| ==> lines[k] == lines[1..][k - 1];
    }
  }

  lemma CleanEmptyCons(x: string, rest: seq<string>)
    ensures CleanLines([x] + rest) == [] <==> IsBlank(x) && CleanLines(rest) == []
  {
    assert ([x] + rest)[0] == x && ([x] + rest)[1..] == rest;
    StripFacts(x);
  }

  /** Cleaning the lines of `t` drops everything exactly when `t[0]` is whitespace and
      cleaning the lines of `t[1..]` drops everything. */
  lemma CleanSplitEmptyStep(t: string)
    requires |t| > 0
    ensures CleanLines(SplitLines(t)) == [] <==>
      IsSpace(t[0]) && CleanLines(SplitLines(t[1..])) == []
  {
    var rest := SplitLines(t[1..]);
    if t[0] == '\n' {
      CleanEmptyCons("", rest);
    } else {
      CleanEmptyCons([t[0]] + rest[0], rest[1..]);
      CleanEmptyCons(rest[0], rest[1..]);
      HeadTail(rest);
      BlankCons([t[0]] + rest[0]);
      assert ([t[0]] + rest[0])[1..] == rest[0];
    }
  }

  lemma {:induction false} CleanSplitEmpty(t: string)
    ensures CleanLines(SplitLines(t)) == [] <==> IsBlank(t)
    decreases |t|
  {
    if |t| > 0 {
      CleanSplitEmpty(t[1..]);
      CleanSplitEmptyStep(t);
      BlankCons(t);
    }
  }

  /** A leading whitespace character changes no cleaned line. */
  lemma CleanSplitConsSpace(c: char, s: string)
    requires IsSpace(c)
    ensures CleanLines(SplitLines([c] + s)) == CleanLines(SplitLines(s))
  {
    var t := [c] + s;
    assert t[0] == c && t[1..] == s;
    var rest := SplitLines(s);
    if c == '\n' {
      assert ([""] + rest)[1..] == rest;
    } else {
      var l := [[c] + rest[0]] + rest[1..];
      assert l[0] == [c] + rest[0] && l[1..] == rest[1..];
      TrimLeftSpace(c, rest[0]);
    }
  }

  /** A trailing whitespace character changes no cleaned line. */
  lemma CleanSplitSnocSpace(s: string, c: char)
    requires IsSpace(c)
    ensures CleanLines(SplitLines(s + [c])) == CleanLines(SplitLines(s))
  {
    SplitLinesSnoc(s, c);
    var l := SplitLines(s);
    var n := |l|;
    assert l == l[..n - 1] + [l[n - 1]];
    if c == '\n' {
      CleanLinesAppend(l, [""]);
    } else {
      CleanLinesAppend(l[..n - 1], [l[n - 1] + [c]]);
      CleanLinesAppend(l[..n - 1], [l[n - 1]]);
      StripSpaceAppended(l[n - 1], c);
    }
  }

  lemma {:induction false} CleanSplitTrimLeft(s: string)
    ensures CleanLines(SplitLines(TrimLeft(s))) == CleanLines(SplitLines(s))
    decreases |s|
  {
    if |s| > 0 && IsSpace(s[0]) {
      CleanSplitTrimLeft(s[1..]);
      CleanSplitConsSpace(s[0], s[1..]);
      HeadTail(s);
    }
  }

  lemma {:induction false} CleanSplitTrimRight(s: string)
    ensures CleanLines(SplitLines(TrimRight(s))) == CleanLines(SplitLines(s))
    decreases |s|
  {
    if |s| > 0 && IsSpace(s[|s| - 1]) {
      CleanSplitTrimRight(s[..|s| - 1]);
      CleanSplitSnocSpace(s[..|s| - 1], s[|s| - 1]);
      InitLast(s);
    }
  }

  /** Stripping the whole text first changes no cleaned line. */
  lemma CleanSplitStrip(s: string)
    ensures CleanLines(SplitLines(Strip(s))) == CleanLines(SplitLines(s))
  {
    CleanSplitTrimRight(TrimLeft(s));
    CleanSplitTrimLeft(s);
  }

  lemma {:induction false} CollapseInteriorClean(xs: seq<string>)
    ensures CleanLines(CollapseInterior(xs)) == CleanLines(xs)
    decreases |xs|
  {
    if |xs| > 0 {
      var k := if IsBlank(xs[0]) then BlankRunEnd(xs, 0) else 1;
      var head: seq<string> := if IsBlank(xs[0]) && k >= 2 then [""] else [xs[0]];
      CollapseInteriorClean(xs[k..]);
      assert CollapseInterior(xs) == head + CollapseInterior(xs[k..]);
      if IsBlank(xs[0]) {
        CleanLinesEmpty(xs[..k]);
        CleanLinesEmpty(head);
      } else {
        assert head == xs[..k];
      }
      CleanAfterHead(xs, k, head, CollapseInterior(xs[k..]));
    }
  }

  /** Replacing a prefix of `xs` by a `head` with the same cleaned lines, and the rest by a
      list with the same cleaned lines, keeps the cleaned lines. */
  lemma CleanAfterHead(xs: seq<string>, k: nat, head: seq<string>, tail: seq<string>)
    requires k <= |xs| && CleanLines(head) == CleanLines(xs[..k])
    requires CleanLines(tail) == CleanLines(xs[k..])
    ensures CleanLines(head + tail) == CleanLines(xs)
  {
    SplitAt(xs, k);
    CleanAppendCongruence(head, tail, xs[..k], xs[k..]);
  }

  lemma CleanAppendCongruence(a: seq<string>, b: seq<string>, c: seq<string>, d: seq<string>)
    requires CleanLines(a) == CleanLines(c) && CleanLines(b) == CleanLines(d)
    ensures CleanLines(a + b) == CleanLines(c + d)
  {
    CleanLinesAppend(a, b);
    CleanLinesAppend(c, d);
  }

  lemma {:induction false} CollapseInteriorNoNewlines(xs: seq<string>)
    requires NoNewlines(xs)
    ensures NoNewlines(CollapseInterior(xs))
    decreases |xs|
  {
    if |xs| > 0 {
      var k := if IsBlank(xs[0]) then BlankRunEnd(xs, 0) else 1;
      var head: seq<string> := if IsBlank(xs[0]) && k >= 2 then [""] else [xs[0]];
      assert NoNewlines(xs[k..]) by {
        forall j | 0 <= j < |xs[k..]| ensures '\n' !in xs[k..][j] { assert xs[k..][j] == xs[k + j]; }
      }
      CollapseInteriorNoNewlines(xs[k..]);
      assert CollapseInterior(xs) == head + CollapseInterior(xs[k..]);
    }
  }

  lemma CleanSandwich(a: string, mid: seq<string>, mid': seq<string>, b: string)
    requires CleanLines(mid) == CleanLines(mid')
    ensures CleanLines([a] + mid + [b]) == CleanLines([a] + mid' + [b])
  {
    CleanLinesAppend([a] + mid, [b]);
    CleanLinesAppend([a], mid);
    CleanLinesAppend([a] + mid', [b]);
    CleanLinesAppend([a], mid');
  }

  /** Collapsing blank runs keeps the cleaned lines. */
  lemma CollapseClean(lines: seq<string>)
    ensures CleanLines(CollapseBlankRuns(lines)) == CleanLines(lines)
  {
    if |lines| > 2 {
      var n := |lines|;
      var mid := lines[1..n - 1];
      CollapseInteriorClean(mid);
      Sandwich(lines);
      CleanSandwich(lines[0], mid, CollapseInterior(mid), lines[n - 1]);
    }
  }

  /** Collapsing blank runs brings in no newline. */
  lemma CollapseNoNewlines(lines: seq<string>)
    requires NoNewlines(lines)
    ensures NoNewlines(CollapseBlankRuns(lines))
  {
    if |lines| > 2 {
      var n := |lines|;
      var mid := lines[1..n - 1];
      assert NoNewlines(mid) by {
        forall j | 0 <= j < |mid| ensures '\n' !in mid[j] { assert mid[j] == lines[j + 1]; }
      }
      CollapseInteriorNoNewlines(mid);
      var r := CollapseBlankRuns(lines);
      var inner := CollapseInterior(mid);
      forall j | 0 <= j < |r| ensures '\n' !in r[j] {
        if j == 0 {
        } else if j < |r| - 1 {
          assert r[j] == inner[j - 1];
        }
      }
    }
  }

  /** The lines of the prepared text, and their cleaned form. */
  lemma PreparedLines(input: string)
    ensures CleanLines(SplitLines(PreparedText(input))) ==
      CleanLines(SplitLines(NormalizeLineEndings(input)))
  {
    var lines := SplitLines(NormalizeLineEndings(input));
    CollapseClean(lines);
    CollapseNoNewlines(lines);
    SplitJoin(CollapseBlankRuns(lines));
  }

  /** Keeping the first line and replacing the rest by a list with the same cleaned lines
      keeps the cleaned lines. */
  lemma CleanConsCongruence(lines: seq<string>, f: seq<string>)
    requires |lines| >= 1 && CleanLines(f) == CleanLines(lines[1..])
    ensures CleanLines([lines[0]] + f) == CleanLines(lines)
  {
    assert ([lines[0]] + f)[0] == lines[0] && ([lines[0]] + f)[1..] == f;
    assert lines == [lines[0]] + lines[1..];
  }

  lemma FlattenJoinFirst(lines: seq<string>)
    requires |lines| >= 2 && BlankRunEnd(lines, 1) == 1
    ensures Flatten(SplitOnBlankLines(lines)) == [lines[0]] + Flatten(SplitOnBlankLines(lines[1..]))
  {
    var rest := SplitOnBlankLines(lines[1..]);
    assert SplitOnBlankLines(lines) == [[lines[0]] + rest[0]] + rest[1..];
    FlattenPrepend(lines[0], rest);
  }

  lemma FlattenPrepend(x: string, groups: seq<seq<string>>)
    requires |groups| >= 1
    ensures Flatten([[x] + groups[0]] + groups[1..]) == [x] + Flatten(groups)
  {
    FlattenConsCons(x, groups[0], groups[1..]);
    HeadTail(groups);
  }

  lemma FlattenConsCons(x: string, g: seq<string>, tail: seq<seq<string>>)
    ensures Flatten([[x] + g] + tail) == [x] + Flatten([g] + tail)
  {
    FlattenCons([x] + g, tail);
    FlattenCons(g, tail);
    assert ([x] + g) + Flatten(tail) == [x] + (g + Flatten(tail));
  }

  lemma FlattenSeparator(lines: seq<string>, k: nat)
    requires 2 <= k < |lines| && k == BlankRunEnd(lines, 1)
    ensures Flatten(SplitOnBlankLines(lines)) == [lines[0]] + Flatten(SplitOnBlankLines(lines[k..]))
  {
    var rest := SplitOnBlankLines(lines[k..]);
    assert SplitOnBlankLines(lines) == [[lines[0]]] + rest;
    FlattenCons([lines[0]], rest);
  }

  /** The first line joins the first piece of the rest. */
  lemma SplitCleanJoinFirst(lines: seq<string>)
    requires |lines| >= 2 && BlankRunEnd(lines, 1) == 1
    requires CleanLines(Flatten(SplitOnBlankLines(lines[1..]))) == CleanLines(lines[1..])
    ensures CleanLines(Flatten(SplitOnBlankLines(lines))) == CleanLines(lines)
  {
    FlattenJoinFirst(lines);
    CleanConsCongruence(lines, Flatten(SplitOnBlankLines(lines[1..])));
  }

  /** A separator of blank lines `lines[1..k]` is dropped. */
  lemma SplitCleanSeparator(lines: seq<string>, k: nat)
    requires 2 <= k < |lines| && k == BlankRunEnd(lines, 1)
    requires CleanLines(Flatten(SplitOnBlankLines(lines[k..]))) == CleanLines(lines[k..])
    ensures CleanLines(Flatten(SplitOnBlankLines(lines))) == CleanLines(lines)
  {
    FlattenSeparator(lines, k);
    BlankSliceDropped(lines, 1, k);
    CleanConsCongruence(lines, Flatten(SplitOnBlankLines(lines[k..])));
  }

  /** A run of blank lines `lines[i..k]` contributes nothing to the cleaned lines. */
  lemma BlankSliceDropped(lines: seq<string>, i: nat, k: nat)
    requires i <= k <= |lines| && forall j :: i <= j < k ==> IsBlank(lines[j])
    ensures CleanLines(lines[i..]) == CleanLines(lines[k..])
  {
    SliceSplit(lines, i, k);
    CleanLinesAppend(lines[i..k], lines[k..]);
    BlankSliceClean(lines, i, k);
  }

  lemma BlankSliceClean(lines: seq<string>, i: nat, k: nat)
    requires i <= k <= |lines| && forall j :: i <= j < k ==> IsBlank(lines[j])
    ensures CleanLines(lines[i..k]) == []
  {
    CleanLinesEmpty(lines[i..k]);
    assert forall j :: 0 <= j < k - i ==> lines[i..k][j] == lines[i + j];
  }

  /** Trailing blank lines: the first and the last line stay, as two pieces. */
  lemma SplitCleanTrailing(lines: seq<string>)
    requires 3 <= |lines| && BlankRunEnd(lines, 1) == |lines|
    ensures CleanLines(Flatten(SplitOnBlankLines(lines))) == CleanLines(lines)
  {
    var n := |lines|;
    FlattenTrailing(lines);
    BlankSliceDropped(lines, 1, n - 1);
    CleanConsCongruence(lines, [lines[n - 1]]);
  }

  lemma FlattenTrailing(lines: seq<string>)
    requires 3 <= |lines| && BlankRunEnd(lines, 1) == |lines|
    ensures Flatten(SplitOnBlankLines(lines)) == [lines[0]] + lines[|lines| - 1..]
  {
    var n := |lines|;
    assert SplitOnBlankLines(lines) == [[lines[0]]] + [[lines[n - 1]]];
    FlattenCons([lines[0]], [[lines[n - 1]]]);
    FlattenCons([lines[n - 1]], []);
    assert lines[n - 1..] == [lines[n - 1]];
  }

  /** Splitting on blank-line separators keeps every non-blank line, in order. */
  lemma {:induction false} SplitPiecesClean(lines: seq<string>)
    requires |lines| >= 1
    ensures CleanLines(Flatten(SplitOnBlankLines(lines))) == CleanLines(lines)
    decreases |lines|
  {
    var n := |lines|;
    if n == 1 {
      FlattenCons(lines, []);
    } else {
      var k := BlankRunEnd(lines, 1);
      if k == 1 {
        SplitPiecesClean(lines[1..]);
        SplitCleanJoinFirst(lines);
      } else if k < n {
        SplitPiecesClean(lines[k..]);
        SplitCleanSeparator(lines, k);
      } else if n >= 3 {
        SplitCleanTrailing(lines);
      } else {
        FlattenCons(lines, []);
      }
    }
  }

  /** Every piece is a run of consecutive input lines, so no piece holds a newline. */
  lemma {:induction false} SplitPiecesNoNewlines(lines: seq<string>)
    requires |lines| >= 1 && NoNewlines(lines)
    ensures forall k :: 0 <= k < |SplitOnBlankLines(lines)| ==> NoNewlines(SplitOnBlankLines(lines)[k])
    decreases |lines|
  {
    var n := |lines|;
    if n > 1 {
      var k := BlankRunEnd(lines, 1);
      if k == 1 {
        NoNewlinesSuffix(lines, 1);
        SplitPiecesNoNewlines(lines[1..]);
        PiecesNoNewlinesJoinFirst(lines);
      } else if k < n {
        NoNewlinesSuffix(lines, k);
        SplitPiecesNoNewlines(lines[k..]);
        PiecesNoNewlinesSeparator(lines, k);
      } else if n >= 3 {
        assert '\n' !in lines[n - 1];
      }
    }
  }

  lemma PiecesNoNewlinesJoinFirst(lines: seq<string>)
    requires |lines| >= 2 && BlankRunEnd(lines, 1) == 1 && NoNewlines(lines)
    requires forall k :: 0 <= k < |SplitOnBlankLines(lines[1..])| ==> NoNewlines(SplitOnBlankLines(lines[1..])[k])
    ensures forall k :: 0 <= k < |SplitOnBlankLines(lines)| ==> NoNewlines(SplitOnBlankLines(lines)[k])
  {
    var rest := SplitOnBlankLines(lines[1..]);
    var pieces := SplitOnBlankLines(lines);
    assert pieces == [[lines[0]] + rest[0]] + rest[1..];
    NoNewlinesCons(lines[0], rest[0]);
    forall i | 0 <= i < |pieces| ensures NoNewlines(pieces[i]) {
      if i > 0 {
        assert pieces[i] == rest[i];
      }
    }
  }

  lemma PiecesNoNewlinesSeparator(lines: seq<string>, k: nat)
    requires 2 <= k < |lines| && k == BlankRunEnd(lines, 1) && NoNewlines(lines)
    requires forall j :: 0 <= j < |SplitOnBlankLines(lines[k..])| ==> NoNewlines(SplitOnBlankLines(lines[k..])[j])
    ensures forall j :: 0 <= j < |SplitOnBlankLines(lines)| ==> NoNewlines(SplitOnBlankLines(lines)[j])
  {
    var rest := SplitOnBlankLines(lines[k..]);
    var pieces := SplitOnBlankLines(lines);
    assert pieces == [[lines[0]]] + rest;
    forall i | 0 <= i < |pieces| ensures NoNewlines(pieces[i]) {
      if i > 0 {
        assert pieces[i] == rest[i - 1];
      }
    }
  }

  /** Cleaning group by group, then concatenating, is cleaning the concatenation. */
  lemma {:induction false} FlattenCleanEach(groups: seq<seq<string>>, cleaned: seq<seq<string>>)
    requires |groups| == |cleaned|
    requires forall k :: 0 <= k < |groups| ==> cleaned[k] == CleanLines(groups[k])
    ensures Flatten(cleaned) == CleanLines(Flatten(groups))
    decreases |groups|
  {
    if |groups| > 0 {
      var n := |groups|;
      FlattenCleanEach(groups[..n - 1], cleaned[..n - 1]);
      CleanLinesAppend(Flatten(groups[..n - 1]), groups[n - 1]);
    }
  }

  /** Segment `k`, cleaned, is piece `k` of the split, cleaned. */
  lemma CleanSegmentsEach(input: string)
    ensures var pieces := SplitOnBlankLines(SplitLines(Strip(PreparedText(input))));
      && |CleanSegments(input)| == |pieces|
      && forall k :: 0 <= k < |pieces| ==> CleanSegments(input)[k] == CleanLines(pieces[k])
  {
    var lines := SplitLines(Strip(PreparedText(input)));
    var pieces := SplitOnBlankLines(lines);
    SplitPiecesNoNewlines(lines);
    forall k | 0 <= k < |pieces| ensures CleanSegments(input)[k] == CleanLines(pieces[k]) {
      SplitJoin(pieces[k]);
    }
  }

  lemma CleanSegmentsFlatten(input: string)
    ensures Flatten(CleanSegments(input)) == CleanLines(SplitLines(NormalizeLineEndings(input)))
  {
    var text := PreparedText(input);
    var lines := SplitLines(Strip(text));
    CleanSegmentsEach(input);
    FlattenCleanEach(SplitOnBlankLines(lines), CleanSegments(input));
    SplitPiecesClean(lines);
    CleanSplitStrip(text);
    PreparedLines(input);
  }

  lemma FlattenMergeInto(prev: seq<seq<string>>, s: seq<string>)
    ensures Flatten(MergeInto(prev, s)) == Flatten(prev) + s
  {
    if |s| == 0 {
      assert Flatten(prev) + s == Flatten(prev);
    } else if OpensCustomer(s) && |prev| > 0 {
      FlattenSnoc(prev, s);
    } else if |prev| == 0 {
      FlattenSnoc([], s);
    } else {
      var m := |prev|;
      InitLast(prev);
      FlattenSnoc(prev[..m - 1], prev[m - 1]);
      FlattenSnoc(prev[..m - 1], prev[m - 1] + s);
    }
  }

  lemma {:induction false} MergeFlatten(segs: seq<seq<string>>)
    ensures Flatten(MergeSegments(segs)) == Flatten(segs)
    decreases |segs|
  {
    if |segs| > 0 {
      var n := |segs|;
      MergeFlatten(segs[..n - 1]);
      FlattenMergeInto(MergeSegments(segs[..n - 1]), segs[n - 1]);
      InitLast(segs);
      FlattenSnoc(segs[..n - 1], segs[n - 1]);
    }
  }

  /** Every block holds at least one line. */
  lemma {:induction false} MergeNonEmpty(segs: seq<seq<string>>)
    ensures forall k :: 0 <= k < |MergeSegments(segs)| ==> |MergeSegments(segs)[k]| >= 1
    decreases |segs|
  {
    if |segs| > 0 {
      MergeNonEmpty(segs[..|segs| - 1]);
    }
  }

  lemma FlattenNonEmpty(groups: seq<seq<string>>)
    requires forall k :: 0 <= k < |groups| ==> |groups[k]| >= 1
    ensures Flatten(groups) == [] <==> |groups| == 0
  {
    if |groups| > 0 {
      FlattenSnoc(groups[..|groups| - 1], groups[|groups| - 1]);
      InitLast(groups);
    }
  }

  /** Every non-blank line of the input, stripped and in order, lands in exactly one block:
      reading the blocks one after another gives the cleaned lines of the input with its line
      endings normalised. */
  lemma BlocksPreserveLines(input: string)
    ensures Flatten(BlockLines(input)) == CleanLines(SplitLines(NormalizeLineEndings(input)))
  {
    MergeFlatten(CleanSegments(input));
    CleanSegmentsFlatten(input);
  }

  /** A text with no visible character yields no block; any other text yields at least one
      block from the loop, so the whole-text fallback of lines 91-92 is never taken. */
  lemma BlankInputHasNoBlocks(input: string)
    ensures IsBlank(input) <==> |BlockLines(input)| == 0
    ensures IsBlank(input) ==> CustomerBlocks(input) == []
    ensures !IsBlank(input) ==> CustomerBlocks(input) == JoinEach(BlockLines(input))
  {
    BlocksPreserveLines(input);
    MergeNonEmpty(CleanSegments(input));
    FlattenNonEmpty(BlockLines(input));
    NormalizeLineEndingsSpec(input);
    CleanSplitEmpty(NormalizeLineEndings(input));
    StripFacts(input);
  }

  // ---------------------------------------------------------------------------
  // How many blocks, and what they look like
  // ---------------------------------------------------------------------------

  /** Segment `s`, coming after the segments `before`, opens a new block: it is non-empty,
      opens a customer, and some line came before it. */
  predicate StartsNewBlock(before: seq<seq<string>>, s: seq<string>) {
    |s| > 0 && OpensCustomer(s) && Flatten(before) != []
  }

  /** The number of segments that start a new block. */
  function NewCustomerCount(segs: seq<seq<string>>): nat
    decreases |segs|
  {
    if |segs| == 0 then 0
    else
      var before := segs[..|segs| - 1];
      NewCustomerCount(before) + if StartsNewBlock(before, segs[|segs| - 1]) then 1 else 0
  }

  lemma {:induction false} NoLinesNoNewCustomers(segs: seq<seq<string>>)
    requires Flatten(segs) == []
    ensures NewCustomerCount(segs) == 0
    decreases |segs|
  {
    if |segs| > 0 {
      var n := |segs|;
      InitLast(segs);
      FlattenSnoc(segs[..n - 1], segs[n - 1]);
      NoLinesNoNewCustomers(segs[..n - 1]);
    }
  }

  /** There are no blocks when no line survives; otherwise one block, plus one for every
      later segment that opens a customer. */
  lemma {:induction false} BlockCount(segs: seq<seq<string>>)
    ensures |MergeSegments(segs)| == if Flatten(segs) == [] then 0 else 1 + NewCustomerCount(segs)
    decreases |segs|
  {
    if |segs| > 0 {
      var n := |segs|;
      var before := segs[..n - 1];
      var prev := MergeSegments(before);
      BlockCount(before);
      MergeFlatten(before);
      MergeNonEmpty(before);
      FlattenNonEmpty(prev);
      InitLast(segs);
      FlattenSnoc(before, segs[n - 1]);
      if Flatten(before) == [] {
        NoLinesNoNewCustomers(before);
      }
    }
  }

  lemma OpensCustomerExtend(b: seq<string>, s: seq<string>)
    requires |b| >= 1 && OpensCustomer(b)
    ensures OpensCustomer(b + s)
  {
    assert (b + s)[0] == b[0];
    if |b| >= 2 {
      assert (b + s)[1] == b[1];
    }
  }

  lemma MergeIntoOpens(prev: seq<seq<string>>, s: seq<string>)
    requires forall k :: 1 <= k < |prev| ==> |prev[k]| >= 1 && OpensCustomer(prev[k])
    ensures forall k :: 1 <= k < |MergeInto(prev, s)| ==>
      |MergeInto(prev, s)[k]| >= 1 && OpensCustomer(MergeInto(prev, s)[k])
  {
    var m := |prev|;
    if |s| > 0 && !(OpensCustomer(s) && m > 0) && m >= 2 {
      OpensCustomerExtend(prev[m - 1], s);
    }
  }

  /** Every block after the first has a name marker at the start of one of its first two
      lines. */
  lemma {:induction false} LaterBlocksOpenCustomers(segs: seq<seq<string>>)
    ensures forall k :: 1 <= k < |MergeSegments(segs)| ==>
      |MergeSegments(segs)[k]| >= 1 && OpensCustomer(MergeSegments(segs)[k])
    decreases |segs|
  {
    if |segs| > 0 {
      LaterBlocksOpenCustomers(segs[..|segs| - 1]);
      MergeIntoOpens(MergeSegments(segs[..|segs| - 1]), segs[|segs| - 1]);
    }
  }

  /** A cleaned line: non-empty, stripped, with no newline. */
  predicate IsCleanLine(line: string) {
    line != "" && IsStripped(line) && '\n' !in line
  }

  predicate AllClean(lines: seq<string>) {
    forall j :: 0 <= j < |lines| ==> IsCleanLine(lines[j])
  }

  lemma MergeIntoClean(prev: seq<seq<string>>, s: seq<string>)
    requires forall k :: 0 <= k < |prev| ==> AllClean(prev[k])
    requires AllClean(s)
    ensures forall k :: 0 <= k < |MergeInto(prev, s)| ==> AllClean(MergeInto(prev, s)[k])
  {
    var m := |prev|;
    if |s| > 0 && !(OpensCustomer(s) && m > 0) && m >= 1 {
      var b := prev[m - 1];
      assert forall j :: 0 <= j < |b + s| ==> (b + s)[j] == if j < |b| then b[j] else s[j - |b|];
    }
  }

  lemma {:induction false} MergeClean(segs: seq<seq<string>>)
    requires forall k :: 0 <= k < |segs| ==> AllClean(segs[k])
    ensures forall k :: 0 <= k < |MergeSegments(segs)| ==> AllClean(MergeSegments(segs)[k])
    decreases |segs|
  {
    if |segs| > 0 {
      MergeClean(segs[..|segs| - 1]);
      MergeIntoClean(MergeSegments(segs[..|segs| - 1]), segs[|segs| - 1]);
    }
  }

  lemma CleanSegmentsClean(input: string)
    ensures forall k :: 0 <= k < |CleanSegments(input)| ==> AllClean(CleanSegments(input)[k])
  {
    var pieces := Segments(PreparedText(input));
    forall k | 0 <= k < |CleanSegments(input)| ensures AllClean(CleanSegments(input)[k]) {
      CleanSegmentAt(input, k);
      CleanLinesShape(SplitLines(pieces[k]));
    }
  }

  /** Joining non-empty stripped lines gives a stripped text. */
  lemma {:induction false} JoinStripped(lines: seq<string>)
    requires |lines| >= 1 && AllClean(lines)
    ensures IsStripped(Join(lines)) && Join(lines) != ""
    decreases |lines|
  {
    if |lines| > 1 {
      assert AllClean(lines[1..]) by {
        forall j | 0 <= j < |lines| - 1 ensures IsCleanLine(lines[1..][j]) { assert lines[1..][j] == lines[j + 1]; }
      }
      JoinStripped(lines[1..]);
      var rest := Join(lines[1..]);
      assert Join(lines) == lines[0] + ("\n" + rest);
      assert Join(lines)[0] == lines[0][0];
      assert Join(lines)[|Join(lines)| - 1] == rest[|rest| - 1];
    }
  }

  /** Every block is a non-empty list of cleaned lines; its text is already stripped, so
      stripping it and splitting it at newlines gives its lines back. */
  lemma BlockShape(input: string)
    ensures forall k :: 0 <= k < |BlockLines(input)| ==>
      var b := BlockLines(input)[k];
      && |b| >= 1 && AllClean(b)
      && Strip(Join(b)) == Join(b) && SplitLines(Strip(Join(b))) == b
  {
    var blocks := BlockLines(input);
    CleanSegmentsClean(input);
    MergeClean(CleanSegments(input));
    MergeNonEmpty(CleanSegments(input));
    forall k | 0 <= k < |blocks|
      ensures Strip(Join(blocks[k])) == Join(blocks[k]) && SplitLines(Strip(Join(blocks[k]))) == blocks[k]
    {
      var b := blocks[k];
      JoinStripped(b);
      StripOfStripped(Join(b));
      assert NoNewlines(b);
      SplitJoin(b);
    }
  }

  /** The number of customer blocks: none for a blank text; otherwise one, plus one for every
      later segment whose first or second cleaned line starts with a name marker. */
  lemma CustomerCount(input: string)
    ensures |CustomerBlocks(input)| ==
      if IsBlank(input) then 0 else 1 + NewCustomerCount(CleanSegments(input))
  {
    BlankInputHasNoBlocks(input);
    BlockCount(CleanSegments(input));
    BlocksPreserveLines(input);
    MergeFlatten(CleanSegments(input));
  }
}
