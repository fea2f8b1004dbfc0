/** The string operations of Rust's standard library that the prelude code uses. */
module Text {
  import opened Wrappers

  /** The position of the first occurrence of pattern. */
  function Find(s: string, pattern: string): Option<nat> {
    if pattern <= s then Some(0)
    else if s == "" then None
    else match Find(s[1..], pattern) { case None => None case Some(i) => Some(i + 1) }
  }

  /** Replaces every occurrence of pattern, from left to right and without overlaps. */
  function Replace(s: string, pattern: string, replacement: string): string
    requires pattern != ""
    decreases |s|
  {
    if s == "" then ""
    else if pattern <= s then replacement + Replace(s[|pattern|..], pattern, replacement)
    else [s[0]] + Replace(s[1..], pattern, replacement)
  }

  predicate EndsWith(s: string, suffix: string) {
    |suffix| <= |s| && s[|s| - |suffix|..] == suffix
  }

  function TrimEndSpaces(s: string): string {
    if s != "" && s[|s| - 1] == ' ' then TrimEndSpaces(s[..|s| - 1]) else s
  }

  /** The number of line breaks among the first n characters. */
  function NewlinesUpTo(s: string, n: nat): nat
    requires n <= |s|
  {
    if n == 0 then 0 else NewlinesUpTo(s, n - 1) + if s[n - 1] == '\n' then 1 else 0
  }

  function Newlines(s: string): nat {
    NewlinesUpTo(s, |s|)
  }

  lemma {:induction false} NewlinesUpToPrefix(a: string, b: string, n: nat)
    requires n <= |a|
    ensures NewlinesUpTo(a + b, n) == NewlinesUpTo(a, n)
  {
    if n > 0 {
      NewlinesUpToPrefix(a, b, n - 1);
      assert (a + b)[n - 1] == a[n - 1];
    }
  }

  lemma {:induction false} NewlinesUpToSuffix(a: string, b: string, n: nat)
    requires n <= |b|
    ensures NewlinesUpTo(a + b, |a| + n) == Newlines(a) + NewlinesUpTo(b, n)
  {
    if n > 0 {
      NewlinesUpToSuffix(a, b, n - 1);
      assert (a + b)[|a| + n - 1] == b[n - 1];
    } else {
      NewlinesUpToPrefix(a, b, |a|);
    }
  }

  lemma NewlinesConcat(a: string, b: string)
    ensures Newlines(a + b) == Newlines(a) + Newlines(b)
  {
    NewlinesUpToSuffix(a, b, |b|);
  }

  lemma NewlinesBreak()
    ensures Newlines("\n") == 1
  {
    assert NewlinesUpTo("\n", 0) == 0;
  }

  lemma {:induction false} NewlinesMonotonic(s: string, m: nat, n: nat)
    requires m <= n <= |s|
    ensures NewlinesUpTo(s, m) <= NewlinesUpTo(s, n) <= NewlinesUpTo(s, m) + n - m
  {
    if m < n {
      NewlinesMonotonic(s, m, n - 1);
    }
  }

  /** str::lines().count(): a line break at the end does not start another line. */
  function LinesCount(s: string): nat {
    match Find(s, "\n")
    case None => if s == "" then 0 else 1
    case Some(i) =>
      FindMeans(s, "\n");
      1 + LinesCount(s[i + 1..])
  }

  lemma {:induction false} FindFound(s: string, pattern: string, i: nat)
    requires Find(s, pattern) == Some(i)
    ensures i + |pattern| <= |s| && s[i..i + |pattern|] == pattern
  {
    if i > 0 {
      FindFound(s[1..], pattern, i - 1);
      assert s[1..][i - 1..i - 1 + |pattern|] == s[i..i + |pattern|];
    }
  }

  lemma FoundThere(s: string, pattern: string)
    requires Find(s, pattern).Some?
    ensures Find(s, pattern).value <= |s| && pattern <= s[Find(s, pattern).value..]
  {
    var i := Find(s, pattern).value;
    FindFound(s, pattern, i);
    assert s[i..][..|pattern|] == s[i..i + |pattern|];
  }

  lemma {:induction false} FindNoneBefore(s: string, pattern: string, j: nat)
    requires j <= |s| && (Find(s, pattern).Some? ==> j < Find(s, pattern).value)
    ensures !(pattern <= s[j..])
  {
    if j == 0 {
      assert s[0..] == s;
    } else {
      FindNoneBefore(s[1..], pattern, j - 1);
      assert s[1..][j - 1..] == s[j..];
    }
  }

  lemma FindMeans(s: string, pattern: string)
    ensures var r := Find(s, pattern);
            && (r.Some? ==> r.value + |pattern| <= |s| && s[r.value..r.value + |pattern|] == pattern)
            && (forall j :: 0 <= j < (if r.Some? then r.value else |s|) ==> !(pattern <= s[j..]))
  {
    var r := Find(s, pattern);
    if r.Some? {
      FindFound(s, pattern, r.value);
    }
    forall j | 0 <= j < (if r.Some? then r.value else |s|)
      ensures !(pattern <= s[j..])
    {
      FindNoneBefore(s, pattern, j);
    }
  }

  lemma {:induction false} FindIs(s: string, pattern: string, i: nat)
    requires i <= |s| && pattern <= s[i..] && forall j :: 0 <= j < i ==> !(pattern <= s[j..])
    ensures Find(s, pattern) == Some(i)
  {
    if i == 0 {
      assert s[0..] == s;
    } else {
      assert s[0..] == s && !(pattern <= s);
      assert s[1..][i - 1..] == s[i..];
      forall j | 0 <= j < i - 1
        ensures !(pattern <= s[1..][j..])
      {
        assert s[1..][j..] == s[j + 1..];
      }
      FindIs(s[1..], pattern, i - 1);
    }
  }

  lemma {:induction false} NoNewlineUpTo(s: string, n: nat)
    requires '\n' !in s && n <= |s|
    ensures NewlinesUpTo(s, n) == 0
  {
    if n > 0 {
      NoNewlineUpTo(s, n - 1);
      assert s[n - 1] in s;
    }
  }

  lemma {:induction false} NoNewlineFound(s: string)
    requires '\n' !in s
    ensures Find(s, "\n") == None
  {
    if s != "" {
      assert s[0] in s;
      NoNewlineFound(s[1..]);
    }
  }

  lemma NoNewline(s: string)
    requires '\n' !in s
    ensures Newlines(s) == 0 && Find(s, "\n") == None
  {
    NoNewlineUpTo(s, |s|);
    NoNewlineFound(s);
  }

  /** The lines of a text are one more than its line breaks, except that a final break starts no line. */
  lemma {:induction false} LinesCountIs(s: string)
    ensures LinesCount(s) == if s == "" then 0 else Newlines(s) + if s[|s| - 1] == '\n' then 0 else 1
    decreases |s|
  {
    FindMeans(s, "\n");
    match Find(s, "\n")
    case None =>
      forall j | 0 <= j < |s|
        ensures s[j] != '\n'
      {
        assert !("\n" <= s[j..]);
      }
      NoNewline(s);
    case Some(i) =>
      LinesCountIs(s[i + 1..]);
      forall j | 0 <= j < i
        ensures s[j] != '\n'
      {
        assert !("\n" <= s[j..]);
      }
      NoNewline(s[..i]);
      assert s == s[..i] + ("\n" + s[i + 1..]);
      NewlinesConcat(s[..i], "\n" + s[i + 1..]);
      NewlinesConcat("\n", s[i + 1..]);
      NewlinesBreak();
      assert s[i] == s[i..i + 1][0];
  }

  // ---------- lines ----------

  /** The stretches between line breaks: always at least one, and none holds a line break. */
  function SplitLines(s: string): (r: seq<string>)
    ensures r != [] && forall l <- r :: '\n' !in l
    ensures |r| == Newlines(s) + 1
  {
    if s == "" then [""]
    else
      var front, last := s[..|s| - 1], s[|s| - 1];
      var ls := SplitLines(front);
      NewlinesUpToPrefix(front, [last], |front|);
      assert s == front + [last];
      if last == '\n' then ls + [""] else ls[|ls| - 1 := ls[|ls| - 1] + [last]]
  }

  function Join(lines: seq<string>): string
    requires lines != []
  {
    if |lines| == 1 then lines[0] else lines[0] + "\n" + Join(lines[1..])
  }

  lemma {:induction false} NewlinesJoin(lines: seq<string>)
    requires lines != [] && forall l <- lines :: '\n' !in l
    ensures Newlines(Join(lines)) == |lines| - 1
  {
    NoNewline(lines[0]);
    if |lines| > 1 {
      NewlinesJoin(lines[1..]);
      NewlinesConcat(lines[0] + "\n", Join(lines[1..]));
      NewlinesConcat(lines[0], "\n");
      NewlinesBreak();
    }
  }

  lemma {:induction false} JoinExtendLast(lines: seq<string>, c: char)
    requires lines != []
    ensures Join(lines[|lines| - 1 := lines[|lines| - 1] + [c]]) == Join(lines) + [c]
  {
    var extended := lines[|lines| - 1 := lines[|lines| - 1] + [c]];
    if |lines| > 1 {
      assert extended[1..] == lines[1..][|lines| - 2 := lines[1..][|lines| - 2] + [c]];
      JoinExtendLast(lines[1..], c);
      assert lines[0] + "\n" + (Join(lines[1..]) + [c]) == lines[0] + "\n" + Join(lines[1..]) + [c];
    }
  }

  lemma {:induction false} JoinAppendEmpty(lines: seq<string>)
    requires lines != []
    ensures Join(lines + [""]) == Join(lines) + "\n"
  {
    if |lines| > 1 {
      assert (lines + [""])[1..] == lines[1..] + [""];
      JoinAppendEmpty(lines[1..]);
      assert lines[0] + "\n" + (Join(lines[1..]) + "\n") == lines[0] + "\n" + Join(lines[1..]) + "\n";
    } else {
      assert (lines + [""])[1..] == [""];
      assert lines[0] + "\n" + "" == lines[0] + "\n";
    }
  }

  /** Splitting loses nothing. */
  lemma {:induction false} JoinSplit(s: string)
    ensures Join(SplitLines(s)) == s
  {
    if s != "" {
      var front, last := s[..|s| - 1], s[|s| - 1];
      JoinSplit(front);
      assert s == front + [last];
      var ls := SplitLines(front);
      if last == '\n' {
        JoinAppendEmpty(ls);
      } else {
        JoinExtendLast(ls, last);
      }
    }
  }

  lemma {:induction false} JoinInjective(a: seq<string>, b: seq<string>)
    requires a != [] && |a| == |b| && Join(a) == Join(b)
    requires (forall l <- a :: '\n' !in l) && forall l <- b :: '\n' !in l
    ensures a == b
  {
    assert a[0] in a && b[0] in b;
    if |a| == 1 {
      assert a == [a[0]] && b == [b[0]];
    } else {
      SameFirstLine(a[0], Join(a[1..]), b[0], Join(b[1..]));
      JoinInjective(a[1..], b[1..]);
      assert a == [a[0]] + a[1..] && b == [b[0]] + b[1..];
    }
  }

  lemma {:induction false} FirstBreak(l: string, rest: string)
    requires '\n' !in l
    ensures Find(l + "\n" + rest, "\n") == Some(|l|)
  {
    if l != "" {
      LineLonger(l, rest);
      assert l[0] in l;
      FirstBreak(l[1..], rest);
    }
  }

  lemma SameFirstLine(l: string, rest: string, m: string, rest': string)
    requires '\n' !in l && '\n' !in m && l + "\n" + rest == m + "\n" + rest'
    ensures l == m && rest == rest'
  {
    var s := l + "\n" + rest;
    FirstBreak(l, rest);
    FirstBreak(m, rest');
    assert s[..|l|] == l && s[..|m|] == m && s[|l| + 1..] == rest && s[|m| + 1..] == rest';
  }

  /** Joining loses nothing. */
  lemma SplitJoin(lines: seq<string>)
    requires lines != [] && forall l <- lines :: '\n' !in l
    ensures SplitLines(Join(lines)) == lines
  {
    JoinSplit(Join(lines));
    NewlinesJoin(lines);
    JoinInjective(SplitLines(Join(lines)), lines);
  }

  // ---------- lines and columns ----------

  /** The line that the character at pos is on. Lines are numbered from one. */
  function LineAt(s: string, pos: nat): nat
    requires pos <= |s|
  {
    1 + NewlinesUpTo(s, pos)
  }

  /** The number of characters between the last line break before pos, if there is one, and pos. */
  function ColumnAt(s: string, pos: nat): nat
    requires pos <= |s|
  {
    if pos == 0 || s[pos - 1] == '\n' then 0 else ColumnAt(s, pos - 1) + 1
  }

  lemma {:induction false} ColumnPrefix(a: string, b: string, n: nat)
    requires n <= |a|
    ensures ColumnAt(a + b, n) == ColumnAt(a, n)
  {
    if n > 0 {
      ColumnPrefix(a, b, n - 1);
    }
  }

  lemma {:induction false} ColumnSuffix(a: string, b: string, n: nat)
    requires n <= |b|
    ensures ColumnAt(a + "\n" + b, |a| + 1 + n) == ColumnAt(b, n)
  {
    if n > 0 {
      ColumnSuffix(a, b, n - 1);
    }
  }

  lemma {:induction false} ColumnOfLine(s: string, n: nat)
    requires '\n' !in s && n <= |s|
    ensures ColumnAt(s, n) == n
  {
    if n > 0 {
      assert s[n - 1] in s;
      ColumnOfLine(s, n - 1);
    }
  }

  /** Where line i, numbered from zero, starts in the joined lines. */
  function LineStart(lines: seq<string>, i: nat): nat
    requires i < |lines|
  {
    if i == 0 then 0 else |lines[0]| + 1 + LineStart(lines[1..], i - 1)
  }

  lemma FirstLinePlace(line: string, more: string, c: nat)
    requires '\n' !in line && c <= |line|
    ensures LineAt(line + more, c) == 1 && ColumnAt(line + more, c) == c
  {
    NewlinesUpToPrefix(line, more, c);
    NoNewlineUpTo(line, c);
    ColumnPrefix(line, more, c);
    ColumnOfLine(line, c);
  }

  /** The character at a line and column of the joined lines is the one at that column of that line. */
  lemma {:induction false} JoinAt(lines: seq<string>, i: nat, c: nat)
    requires i < |lines| && c <= |lines[i]| && forall l <- lines :: '\n' !in l
    ensures var s, pos := Join(lines), LineStart(lines, i) + c;
            && pos <= |s| && LineAt(s, pos) == i + 1 && ColumnAt(s, pos) == c
            && (c < |lines[i]| ==> pos < |s| && s[pos] == lines[i][c])
    decreases i
  {
    var first := lines[0];
    assert first in lines;
    if |lines| == 1 {
      FirstLinePlace(first, "", c);
      assert first + "" == first;
    } else if i == 0 {
      FirstLinePlace(first, "\n" + Join(lines[1..]), c);
      assert first + ("\n" + Join(lines[1..])) == Join(lines);
    } else {
      JoinAt(lines[1..], i - 1, c);
      LaterLinePlace(first, Join(lines[1..]), LineStart(lines[1..], i - 1) + c);
    }
  }

  lemma LaterLinePlace(first: string, rest: string, n: nat)
    requires '\n' !in first && n <= |rest|
    ensures var s := first + "\n" + rest;
            && LineAt(s, |first| + 1 + n) == LineAt(rest, n) + 1 && ColumnAt(s, |first| + 1 + n) == ColumnAt(rest, n)
            && (n < |rest| ==> s[|first| + 1 + n] == rest[n])
  {
    NewlinesUpToSuffix(first + "\n", rest, n);
    NewlinesConcat(first, "\n");
    NewlinesBreak();
    NoNewlineUpTo(first, |first|);
    ColumnSuffix(first, rest, n);
  }

  // ---------- replacements that end at a line break ----------

  /** The line with core at its end, if it is there, replaced by short. */
  function ReplaceEnd(line: string, core: string, short: string): string {
    if EndsWith(line, core) then line[..|line| - |core|] + short else line
  }

  lemma PatternHasNewline(s: string, core: string)
    requires core + "\n" <= s
    ensures '\n' in s
  {
    assert (core + "\n")[|core|] == '\n';
    assert s[|core|] == '\n';
  }

  lemma {:induction false} ReplaceNone(s: string, core: string, replacement: string)
    requires '\n' !in s && '\n' !in core
    ensures Replace(s, core + "\n", replacement) == s
    decreases |s|
  {
    if s != "" {
      if core + "\n" <= s {
        PatternHasNewline(s, core);
      }
      ReplaceNone(s[1..], core, replacement);
    }
  }

  lemma PatternIsLine(line: string, rest: string, core: string)
    requires '\n' !in line && '\n' !in core && core + "\n" <= line + "\n" + rest
    ensures line == core
  {
    var s, pattern := line + "\n" + rest, core + "\n";
    assert s[|line|] == '\n' && pattern[|core|] == '\n' && s[|core|] == pattern[|core|];
    assert |core| == |line|;
    assert forall i :: 0 <= i < |line| ==> line[i] == s[i] && s[i] == pattern[i] && pattern[i] == core[i];
  }

  lemma ReplaceEndStep(line: string, core: string, short: string)
    requires line != "" && line != core
    ensures [line[0]] + ReplaceEnd(line[1..], core, short) == ReplaceEnd(line, core, short)
  {
    var tail := line[1..];
    if |core| < |line| {
      assert tail[|tail| - |core|..] == line[|line| - |core|..];
      if EndsWith(line, core) {
        assert [line[0]] + (tail[..|tail| - |core|] + short) == line[..|line| - |core|] + short;
      }
    } else if |core| == |line| {
      assert line[0..] == line;
    }
  }

  lemma LineLonger(line: string, rest: string)
    requires line != ""
    ensures (line + "\n" + rest)[0] == line[0] && (line + "\n" + rest)[1..] == line[1..] + "\n" + rest
  {
  }

  lemma LineRegroup(c: char, line: string, rest: string)
    ensures [c] + (line + "\n" + rest) == [c] + line + "\n" + rest
  {
  }

  lemma NotTheLine(line: string, rest: string, core: string)
    requires !(core + "\n" <= line + "\n" + rest)
    ensures line != core
  {
    assert (line + "\n" + rest)[..|line| + 1] == line + "\n";
  }

  /** A pattern that ends with its only line break is replaced line by line. */
  lemma {:induction false} ReplaceFirstLine(line: string, rest: string, core: string, short: string)
    requires '\n' !in line && '\n' !in core && core != ""
    ensures Replace(line + "\n" + rest, core + "\n", short + "\n")
         == ReplaceEnd(line, core, short) + "\n" + Replace(rest, core + "\n", short + "\n")
    decreases |line|
  {
    var s, pattern := line + "\n" + rest, core + "\n";
    var replaced := Replace(rest, pattern, short + "\n");
    if pattern <= s {
      PatternIsLine(line, rest, core);
      assert s[|pattern|..] == rest && line[..0] + short == short && line[0..] == line;
    } else if line == "" {
      assert s[1..] == rest && s[0] == '\n';
      assert "" + "\n" + replaced == "\n" + replaced;
    } else {
      NotTheLine(line, rest, core);
      LineLonger(line, rest);
      ReplaceFirstLine(line[1..], rest, core, short);
      ReplaceEndStep(line, core, short);
      LineRegroup(line[0], ReplaceEnd(line[1..], core, short), replaced);
    }
  }
}
