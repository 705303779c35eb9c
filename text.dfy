/** Character classes and the handful of Python `str` operations the extractor relies on:
    `isspace`, `strip`, `split('\n')`, `'\n'.join`, the `in` substring test and an
    ASCII case-insensitive prefix test (what `re.IGNORECASE` does to the Latin markers). */
module Text {

  datatype Option<T> = None | Some(value: T)

  /** Python's `str.isspace()`; a `str` regex's `\s` matches exactly these characters. */
  predicate IsSpace(c: char) {
    || c == ' '
    || '\t' <= c <= '\r'
    || '\U{1C}' <= c <= '\U{1F}'
    || c == '\U{85}' || c == '\U{A0}' || c == '\U{1680}'
    || '\U{2000}' <= c <= '\U{200A}'
    || c == '\U{2028}' || c == '\U{2029}' || c == '\U{202F}' || c == '\U{205F}' || c == '\U{3000}'
  }

  /** The regex class `\d`, restricted to ASCII digits. */
  predicate IsDigit(c: char) {
    '0' <= c <= '9'
  }

  predicate AllDigits(s: string) {
    forall i :: 0 <= i < |s| ==> IsDigit(s[i])
  }

  /** A line is blank when nothing but whitespace is on it (`not line.strip()`). */
  predicate IsBlank(s: string) {
    forall i :: 0 <= i < |s| ==> IsSpace(s[i])
  }

  /** A stripped string: empty, or with no whitespace at either end. */
  predicate IsStripped(s: string) {
    s == [] || (!IsSpace(s[0]) && !IsSpace(s[|s| - 1]))
  }

  function TrimLeft(s: string): (r: string) {
    if |s| > 0 && IsSpace(s[0]) then TrimLeft(s[1..]) else s
  }

  function TrimRight(s: string): (r: string) {
    if |s| > 0 && IsSpace(s[|s| - 1]) then TrimRight(s[..|s| - 1]) else s
  }

  /** `str.strip()`: `s` without the whitespace at either end. */
  function Strip(s: string): (r: string) {
    TrimRight(TrimLeft(s))
  }

  /** Trimming on the left keeps a suffix that starts with a visible character, and is
      empty exactly for a blank text. */
  lemma {:induction false} TrimLeftFacts(s: string)
    ensures |TrimLeft(s)| <= |s| && TrimLeft(s) == s[|s| - |TrimLeft(s)|..]
    ensures TrimLeft(s) == [] || !IsSpace(TrimLeft(s)[0])
    ensures TrimLeft(s) == [] <==> IsBlank(s)
    decreases |s|
  {
    if |s| > 0 && IsSpace(s[0]) {
      TrimLeftFacts(s[1..]);
      BlankCons(s);
    } else if |s| > 0 {
      assert !IsBlank(s);
    }
  }

  /** Trimming on the right keeps a prefix that ends with a visible character, and is empty
      exactly for a blank text. */
  lemma {:induction false} TrimRightFacts(s: string)
    ensures |TrimRight(s)| <= |s| && TrimRight(s) == s[..|TrimRight(s)|]
    ensures TrimRight(s) == [] || !IsSpace(TrimRight(s)[|TrimRight(s)| - 1])
    ensures TrimRight(s) == [] <==> IsBlank(s)
    decreases |s|
  {
    if |s| > 0 && IsSpace(s[|s| - 1]) {
      TrimRightFacts(s[..|s| - 1]);
      BlankConcat(s[..|s| - 1], [s[|s| - 1]]);
      InitLast(s);
    } else if |s| > 0 {
      assert !IsBlank(s);
    }
  }

  /** The stripped text is a stripped string, no longer than the text, and empty exactly when
      the text is blank. */
  lemma StripFacts(s: string)
    ensures |Strip(s)| <= |s|
    ensures IsStripped(Strip(s))
    ensures Strip(s) == [] <==> IsBlank(s)
  {
    var l := TrimLeft(s);
    TrimLeftFacts(s);
    TrimRightFacts(l);
    if Strip(s) != [] {
      assert Strip(s)[0] == l[0];
    }
    if IsBlank(l) {
      assert l == [];
    }
  }

  lemma BlankConcat(a: string, b: string)
    ensures IsBlank(a + b) <==> IsBlank(a) && IsBlank(b)
  {
    if IsBlank(a + b) {
      assert forall i :: 0 <= i < |a| ==> a[i] == (a + b)[i];
      assert forall i :: 0 <= i < |b| ==> b[i] == (a + b)[|a| + i];
    }
  }

  lemma BlankCons(s: string)
    requires |s| > 0
    ensures IsBlank(s) <==> IsSpace(s[0]) && IsBlank(s[1..])
  {
    assert forall i :: 1 <= i < |s| ==> s[i] == s[1..][i - 1];
  }

  lemma StripOfStripped(s: string)
    requires IsStripped(s)
    ensures Strip(s) == s
  {
  }

  lemma {:induction false} TrimLeftSpace(c: char, s: string)
    requires IsSpace(c)
    ensures Strip([c] + s) == Strip(s)
  {
    assert ([c] + s)[1..] == s;
  }

  lemma {:induction false} TrimRightAppend(s: string, c: char)
    requires !IsBlank(s)
    ensures TrimLeft(s + [c]) == TrimLeft(s) + [c]
    decreases |s|
  {
    if IsSpace(s[0]) {
      assert (s + [c])[1..] == s[1..] + [c];
      BlankCons(s);
      TrimRightAppend(s[1..], c);
    }
  }

  /** Leading whitespace makes no difference to what trimming on the left leaves. */
  lemma {:induction false} TrimLeftBlankPrefix(w: string, s: string)
    requires IsBlank(w)
    ensures TrimLeft(w + s) == TrimLeft(s)
    decreases |w|
  {
    if |w| > 0 {
      assert (w + s)[0] == w[0] && IsSpace(w[0]) && (w + s)[1..] == w[1..] + s;
      assert IsBlank(w[1..]) by { BlankCons(w); }
      TrimLeftBlankPrefix(w[1..], s);
    } else {
      assert w + s == s;
    }
  }

  /** A visible character in `a` stops trimming on the left before `b` is reached. */
  lemma {:induction false} TrimLeftNonBlank(a: string, b: string)
    requires !IsBlank(a)
    ensures TrimLeft(a + b) == TrimLeft(a) + b
    decreases |a|
  {
    assert (a + b)[0] == a[0];
    if IsSpace(a[0]) {
      assert (a + b)[1..] == a[1..] + b;
      BlankCons(a);
      TrimLeftNonBlank(a[1..], b);
    }
  }

  /** Trailing whitespace makes no difference to what trimming on the right leaves. */
  lemma {:induction false} TrimRightBlankSuffix(s: string, w: string)
    requires IsBlank(w)
    ensures TrimRight(s + w) == TrimRight(s)
    decreases |w|
  {
    if |w| == 0 {
      assert s + w == s;
    } else {
      var sw := s + w;
      assert sw[|sw| - 1] == w[|w| - 1] && sw[..|sw| - 1] == s + w[..|w| - 1];
      assert IsBlank(w[..|w| - 1]);
      TrimRightBlankSuffix(s, w[..|w| - 1]);
    }
  }

  /** A visible character in `b` stops trimming on the right before `a` is reached. */
  lemma {:induction false} TrimRightNonBlank(a: string, b: string)
    requires !IsBlank(b)
    ensures TrimRight(a + b) == a + TrimRight(b)
    decreases |b|
  {
    var ab := a + b;
    var n := |b|;
    assert ab[|ab| - 1] == b[n - 1];
    if IsSpace(b[n - 1]) {
      assert ab[..|ab| - 1] == a + b[..n - 1];
      BlankConcat(b[..n - 1], [b[n - 1]]);
      assert b[..n - 1] + [b[n - 1]] == b;
      TrimRightNonBlank(a, b[..n - 1]);
    }
  }

  /** Trimming takes no newline into a string that had none. */
  lemma TrimKeepsNoNewline(s: string)
    requires '\n' !in s
    ensures '\n' !in TrimLeft(s) && '\n' !in TrimRight(s)
  {
    TrimLeftFacts(s);
    TrimRightFacts(s);
    forall c | c in TrimLeft(s) ensures c in s {
      var i :| 0 <= i < |TrimLeft(s)| && TrimLeft(s)[i] == c;
      assert s[|s| - |TrimLeft(s)| + i] == c;
    }
    forall c | c in TrimRight(s) ensures c in s {
      var i :| 0 <= i < |TrimRight(s)| && TrimRight(s)[i] == c;
      assert s[i] == c;
    }
  }

  lemma {:induction false} TrimLeftOfBlank(s: string)
    requires IsBlank(s)
    ensures TrimLeft(s) == []
  {
    TrimLeftFacts(s);
  }

  lemma {:induction false} StripSpaceAppended(s: string, c: char)
    requires IsSpace(c)
    ensures Strip(s + [c]) == Strip(s)
  {
    if IsBlank(s) {
      BlankConcat(s, [c]);
      TrimLeftOfBlank(s + [c]);
      TrimLeftOfBlank(s);
    } else {
      TrimRightAppend(s, c);
      var l := TrimLeft(s);
      assert (l + [c])[..|l + [c]| - 1] == l;
    }
  }

  /** `str.split('\n')`: never empty; splitting "" gives [""]. */
  function SplitLines(s: string): (r: seq<string>)
    ensures |r| >= 1
    ensures forall k :: 0 <= k < |r| ==> '\n' !in r[k]
  {
    if |s| == 0 then [""]
    else
      var rest := SplitLines(s[1..]);
      if s[0] == '\n' then [""] + rest else [[s[0]] + rest[0]] + rest[1..]
  }

  /** `'\n'.join(lines)`. */
  function Join(lines: seq<string>): string {
    if |lines| == 0 then ""
    else if |lines| == 1 then lines[0]
    else lines[0] + "\n" + Join(lines[1..])
  }

  predicate NoNewlines(lines: seq<string>) {
    forall k :: 0 <= k < |lines| ==> '\n' !in lines[k]
  }

  lemma {:induction false} SplitLineWithoutNewline(s: string)
    requires '\n' !in s
    ensures SplitLines(s) == [s]
    decreases |s|
  {
    if |s| > 0 {
      assert s[1..] + [] == s[1..];
      assert '\n' !in s[1..] by { forall c | c in s[1..] ensures c != '\n' { } }
      SplitLineWithoutNewline(s[1..]);
      assert [s[0]] + s[1..] == s;
    }
  }

  lemma {:induction false} SplitLinesCons(x: string, y: string)
    requires '\n' !in x
    ensures SplitLines(x + "\n" + y) == [x] + SplitLines(y)
    decreases |x|
  {
    if |x| == 0 {
      assert x + "\n" + y == "\n" + y;
      assert ("\n" + y)[1..] == y;
    } else {
      var s := x + "\n" + y;
      assert s[0] == x[0] && s[1..] == x[1..] + "\n" + y;
      assert '\n' !in x[1..] by { forall c | c in x[1..] ensures c != '\n' { assert c in x; } }
      SplitLinesCons(x[1..], y);
      assert [x[0]] + x[1..] == x;
    }
  }

  /** Splitting a join gives the lines back when no line contains a newline. */
  lemma {:induction false} SplitJoin(lines: seq<string>)
    requires |lines| >= 1 && NoNewlines(lines)
    ensures SplitLines(Join(lines)) == lines
    decreases |lines|
  {
    if |lines| == 1 {
      SplitLineWithoutNewline(lines[0]);
    } else {
      SplitLinesCons(lines[0], Join(lines[1..]));
      SplitJoin(lines[1..]);
    }
  }

  /** Joining the pieces of a split gives the text back. */
  lemma {:induction false} JoinSplit(s: string)
    ensures Join(SplitLines(s)) == s
    decreases |s|
  {
    if |s| > 0 {
      var rest := SplitLines(s[1..]);
      JoinSplit(s[1..]);
      if s[0] == '\n' {
        assert Join([""] + rest) == "" + "\n" + Join(rest);
        assert "" + "\n" + s[1..] == s;
      } else {
        var r := [[s[0]] + rest[0]] + rest[1..];
        if |rest| == 1 {
          assert Join(r) == [s[0]] + rest[0];
          assert [s[0]] + s[1..] == s;
        } else {
          assert r[1..] == rest[1..];
          assert Join(rest) == rest[0] + "\n" + Join(rest[1..]);
          assert Join(r) == [s[0]] + rest[0] + "\n" + Join(rest[1..]);
          assert [s[0]] + s[1..] == s;
        }
      }
    }
  }

  /** `sub` occurs in `s` starting at index `i`. */
  predicate OccursAt(s: string, sub: string, i: nat) {
    i + |sub| <= |s| && s[i..i + |sub|] == sub
  }

  /** `sub` occurs in `s` at index `from` or later. */
  predicate OccursFrom(s: string, sub: string, from: nat)
    decreases |s| - from
  {
    from <= |s| && (OccursAt(s, sub, from) || OccursFrom(s, sub, from + 1))
  }

  /** Python's `sub in s`. */
  predicate Contains(s: string, sub: string) {
    OccursFrom(s, sub, 0)
  }

  /** `any(k in s for k in keys)`, trying the keys in order. */
  predicate ContainsAny(s: string, keys: seq<string>) {
    |keys| > 0 && (Contains(s, keys[0]) || ContainsAny(s, keys[1..]))
  }

  lemma {:induction false} OccursFromIff(s: string, sub: string, from: nat)
    ensures OccursFrom(s, sub, from) <==> exists i: nat :: from <= i <= |s| && OccursAt(s, sub, i)
    decreases |s| - from
  {
    if from <= |s| {
      OccursFromIff(s, sub, from + 1);
      if OccursFrom(s, sub, from) && !OccursAt(s, sub, from) {
        var i: nat :| from + 1 <= i <= |s| && OccursAt(s, sub, i);
      }
    }
  }

  /** `Contains` is substring occurrence. */
  lemma ContainsIff(s: string, sub: string)
    ensures Contains(s, sub) <==> exists i: nat :: i <= |s| && OccursAt(s, sub, i)
  {
    OccursFromIff(s, sub, 0);
  }

  /** `ContainsAny` holds exactly when one of the keys occurs. */
  lemma {:induction false} ContainsAnyIff(s: string, keys: seq<string>)
    ensures ContainsAny(s, keys) <==> exists k :: k in keys && Contains(s, k)
    decreases |keys|
  {
    if |keys| > 0 {
      ContainsAnyIff(s, keys[1..]);
      if ContainsAny(s, keys) && !Contains(s, keys[0]) {
        var k :| k in keys[1..] && Contains(s, k);
        assert k in keys;
      }
      if exists k :: k in keys && Contains(s, k) {
        var k :| k in keys && Contains(s, k);
        if k != keys[0] {
          assert k in keys[1..];
        }
      }
    }
  }

  /** ASCII lower-casing: what `re.IGNORECASE` amounts to for markers spelt in Latin
      letters (`n`, `a`, `m`, `e` have no non-ASCII case partners). */
  function Lower(c: char): char {
    if 'A' <= c <= 'Z' then (c as int + 32) as char else c
  }

  /** `re.match('^' + p, s, re.IGNORECASE)` for a literal `p`. */
  predicate StartsWithIgnoreCase(s: string, p: string) {
    |p| <= |s| && forall i :: 0 <= i < |p| ==> Lower(s[i]) == Lower(p[i])
  }

  /** Concatenation of a list of line lists. */
  function Flatten(groups: seq<seq<string>>): seq<string> {
    if |groups| == 0 then [] else Flatten(groups[..|groups| - 1]) + groups[|groups| - 1]
  }

  lemma {:induction false} FlattenAppend(a: seq<seq<string>>, b: seq<seq<string>>)
    ensures Flatten(a + b) == Flatten(a) + Flatten(b)
    decreases |b|
  {
    if |b| == 0 {
      assert a + b == a;
    } else {
      assert (a + b)[..|a + b| - 1] == a + b[..|b| - 1];
      FlattenAppend(a, b[..|b| - 1]);
    }
  }

  lemma HeadTail<T>(s: seq<T>)
    requires |s| >= 1
    ensures s == [s[0]] + s[1..]
  {
  }

  lemma SplitAt<T>(s: seq<T>, k: nat)
    requires k <= |s|
    ensures s == s[..k] + s[k..]
  {
  }

  lemma InitLast<T>(s: seq<T>)
    requires |s| >= 1
    ensures s == s[..|s| - 1] + [s[|s| - 1]]
  {
  }

  lemma Sandwich<T>(s: seq<T>)
    requires |s| >= 2
    ensures s == [s[0]] + s[1..|s| - 1] + [s[|s| - 1]]
  {
  }

  lemma SliceSplit<T>(s: seq<T>, i: nat, k: nat)
    requires i <= k <= |s|
    ensures s[i..] == s[i..k] + s[k..]
  {
  }

  lemma NoNewlinesSuffix(lines: seq<string>, j: nat)
    requires j <= |lines| && NoNewlines(lines)
    ensures NoNewlines(lines[j..])
  {
    forall i | 0 <= i < |lines| - j ensures '\n' !in lines[j..][i] {
      assert lines[j..][i] == lines[j + i];
    }
  }

  lemma NoNewlinesCons(x: string, ys: seq<string>)
    requires '\n' !in x && NoNewlines(ys)
    ensures NoNewlines([x] + ys)
  {
    forall i | 0 <= i < |ys| + 1 ensures '\n' !in ([x] + ys)[i] {
      if i > 0 {
        assert ([x] + ys)[i] == ys[i - 1];
      }
    }
  }

  lemma FlattenSnoc(xs: seq<seq<string>>, y: seq<string>)
    ensures Flatten(xs + [y]) == Flatten(xs) + y
  {
    assert (xs + [y])[..|xs|] == xs;
  }

  lemma FlattenCons(x: seq<string>, ys: seq<seq<string>>)
    ensures Flatten([x] + ys) == x + Flatten(ys)
  {
    FlattenAppend([x], ys);
    assert [x][..0] == [];
  }

  /** What appending `c` does to a list of lines. */
  function AppendToLines(l: seq<string>, c: char): seq<string>
    requires |l| >= 1
  {
    if c == '\n' then l + [""] else l[..|l| - 1] + [l[|l| - 1] + [c]]
  }

  /** Prefixing a line list with a first character commutes with appending `c`. */
  lemma ConsAppendToLines(x: char, rest: seq<string>, c: char)
    requires |rest| >= 1 && x != '\n'
    ensures var r' := AppendToLines(rest, c);
      [[x] + r'[0]] + r'[1..] == AppendToLines([[x] + rest[0]] + rest[1..], c)
  {
    var n := |rest|;
    var l := [[x] + rest[0]] + rest[1..];
    if c == '\n' {
      assert (rest + [""])[1..] == rest[1..] + [""];
    } else if n == 1 {
      assert [x] + (rest[0] + [c]) == [x] + rest[0] + [c];
    } else {
      assert l[..|l| - 1] == [[x] + rest[0]] + rest[1..n - 1];
      assert (rest[..n - 1] + [rest[n - 1] + [c]])[1..] == rest[1..n - 1] + [rest[n - 1] + [c]];
    }
  }

  /** Appending a character to a text extends its last line, or opens a new empty one. */
  lemma {:induction false} SplitLinesSnoc(s: string, c: char)
    ensures SplitLines(s + [c]) == AppendToLines(SplitLines(s), c)
    decreases |s|
  {
    if |s| == 0 {
      assert s + [c] == [c];
      assert [c][1..] == [];
      assert SplitLines([]) == [""];
      if c != '\n' {
        assert SplitLines([c]) == [[c] + ""] + [""][1..];
        assert [c] + "" == "" + [c];
      }
    } else {
      var t := s + [c];
      assert t[0] == s[0] && t[1..] == s[1..] + [c];
      SplitLinesSnoc(s[1..], c);
      var rest := SplitLines(s[1..]);
      if s[0] == '\n' {
        assert SplitLines(s) == [""] + rest;
        if c != '\n' {
          assert ([""] + rest)[..|rest|] == [""] + rest[..|rest| - 1];
        }
      } else {
        ConsAppendToLines(s[0], rest, c);
      }
    }
  }

  /** Splitting a non-empty stripped text gives a first and a last line that are not blank. */
  lemma SplitLinesEnds(s: string)
    requires IsStripped(s) && s != ""
    ensures !IsBlank(SplitLines(s)[0])
    ensures !IsBlank(SplitLines(s)[|SplitLines(s)| - 1])
  {
    assert IsSpace('\n');
    var first := SplitLines(s)[0];
    assert first == [s[0]] + SplitLines(s[1..])[0];
    assert first[0] == s[0] && !IsSpace(first[0]);
    var n := |s|;
    var c := s[n - 1];
    assert s == s[..n - 1] + [c];
    SplitLinesSnoc(s[..n - 1], c);
    var l := SplitLines(s[..n - 1]);
    var last := SplitLines(s)[|SplitLines(s)| - 1];
    assert last == l[|l| - 1] + [c];
    assert last[|last| - 1] == c && !IsSpace(c);
  }

  /** Stripping never brings in a character that was not there. */
  lemma StripKeepsOut(s: string, c: char)
    requires c !in s
    ensures c !in Strip(s)
  {
    var l := TrimLeft(s);
    TrimLeftFacts(s);
    assert forall i :: 0 <= i < |l| ==> l[i] == s[|s| - |l| + i];
    var r := TrimRight(l);
    TrimRightFacts(l);
    assert forall i :: 0 <= i < |r| ==> r[i] == l[i];
  }
}
