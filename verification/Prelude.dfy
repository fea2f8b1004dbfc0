/** Replacing the prelude of a masterlist (src/metadata/metadata_document.rs) and mapping the lines of the
    result back to the files they came from (src/metadata/error.rs). */
module Prelude {
  import opened Wrappers
  import Sequences
  import opened Text

  const PRELUDE_ON_FIRST_LINE := "prelude:"
  const PRELUDE_ON_NEW_LINE := "\nprelude:"

  datatype SplitMasterlist = SplitMasterlist(beforePrelude: string, prelude: string, afterPrelude: string)

  datatype PreludeDiffSpan = PreludeDiffSpan(startLine: nat, endLine: nat, linesAddedCount: int)

  datatype MasterlistWithReplacedPrelude = MasterlistWithReplacedPrelude(
    masterlist: string,
    meta: Option<PreludeDiffSpan>)

  datatype PreludeSubstitutionOverflow = PreludeSubstitutionOverflow(newPreludeCount: nat, oldPreludeCount: nat)

  // ---------- finding the prelude ----------

  /** The text up to and including the prelude key, and the rest. */
  function SplitOnPreludeStart(masterlist: string): Option<(string, string)> {
    if PRELUDE_ON_FIRST_LINE <= masterlist then
      Some((PRELUDE_ON_FIRST_LINE, masterlist[|PRELUDE_ON_FIRST_LINE|..]))
    else
      match Find(masterlist, PRELUDE_ON_NEW_LINE)
      case None => None
      case Some(pos) =>
        FindMeans(masterlist, PRELUDE_ON_NEW_LINE);
        var index := pos + |PRELUDE_ON_NEW_LINE|;
        Some((masterlist[..index], masterlist[index..]))
  }

  /** A line that starts with one of these characters does not end the prelude. */
  predicate ContinuesPrelude(c: char) {
    c == ' ' || c == '#' || c == '\n' || c == '\r'
  }

  /** The character at i is a line break that is followed by a new top-level key. */
  predicate EndsPrelude(s: string, i: nat)
    requires i < |s|
  {
    s[i] == '\n' && i + 1 < |s| && !ContinuesPrelude(s[i + 1])
  }

  function PreludeLength(s: string): (n: nat)
    ensures n <= |s|
    ensures forall i :: 0 <= i < n - 1 ==> !EndsPrelude(s, i)
    ensures n < |s| ==> n > 0 && EndsPrelude(s, n - 1)
  {
    PreludeLengthFrom(s, 0)
  }

  function PreludeLengthFrom(s: string, k: nat): (n: nat)
    requires k <= |s| && forall i :: 0 <= i < k ==> !EndsPrelude(s, i)
    ensures n <= |s|
    ensures forall i :: 0 <= i < n - 1 ==> !EndsPrelude(s, i)
    ensures n < |s| ==> n > 0 && EndsPrelude(s, n - 1)
    decreases |s| - k
  {
    if k == |s| then |s| else if EndsPrelude(s, k) then k + 1 else PreludeLengthFrom(s, k + 1)
  }

  lemma PreludeLengthUnique(s: string, n: nat)
    requires n <= |s| && forall i :: 0 <= i < n - 1 ==> !EndsPrelude(s, i)
    requires n < |s| ==> n > 0 && EndsPrelude(s, n - 1)
    requires n == |s| > 0 ==> !EndsPrelude(s, n - 1)
    ensures PreludeLength(s) == n
  {
    var m := PreludeLength(s);
    assert m < |s| ==> EndsPrelude(s, m - 1);
  }

  function Split(masterlist: string): Option<SplitMasterlist> {
    match SplitOnPreludeStart(masterlist)
    case None => None
    case Some((prefix, remainder)) =>
      var n := PreludeLength(remainder);
      Some(SplitMasterlist(prefix, remainder[..n], remainder[n..]))
  }

  method SplitOnPrelude(masterlist: string) returns (r: Option<SplitMasterlist>)
    ensures r == Split(masterlist)
  {
    var start := SplitOnPreludeStart(masterlist);
    if start.None? {
      return None;
    }
    var (prefix, remainder) := start.value;

    for index := 0 to |remainder|
      invariant forall i :: 0 <= i < index ==> !EndsPrelude(remainder, i)
    {
      if remainder[index] != '\n' {
        continue;
      }
      if index + 1 < |remainder| && !ContinuesPrelude(remainder[index + 1]) {
        PreludeLengthUnique(remainder, index + 1);
        return Some(SplitMasterlist(prefix, remainder[..index + 1], remainder[index + 1..]));
      }
    }
    PreludeLengthUnique(remainder, |remainder|);
    assert remainder[..|remainder|] == remainder && remainder[|remainder|..] == "";
    return Some(SplitMasterlist(prefix, remainder, ""));
  }

  /** There is no prelude key at the start of any line before position n. */
  ghost predicate NoKeyBefore(masterlist: string, n: int) {
    && !("prelude:" <= masterlist)
    && forall j :: 0 <= j < n ==> j <= |masterlist| && !("\nprelude:" <= masterlist[j..])
  }

  /** The key ends the text before the prelude, stands at the start of a line, and is the first that does. */
  lemma StartMeaning(masterlist: string)
    ensures SplitOnPreludeStart(masterlist).None? ==> NoKeyBefore(masterlist, |masterlist|)
    ensures SplitOnPreludeStart(masterlist).Some? ==>
              var prefix := SplitOnPreludeStart(masterlist).value.0;
              && masterlist == prefix + SplitOnPreludeStart(masterlist).value.1
              && (prefix == "prelude:"
                  || (|prefix| >= 9 && prefix[|prefix| - 9..] == "\nprelude:"
                      && NoKeyBefore(masterlist, |prefix| - 9)))
  {
    FindMeans(masterlist, PRELUDE_ON_NEW_LINE);
  }

  lemma SplitPartsMeaning(masterlist: string)
    requires Split(masterlist).Some?
    ensures var s := Split(masterlist).value; masterlist == s.beforePrelude + s.prelude + s.afterPrelude
  {
    StartMeaning(masterlist);
    var s := Split(masterlist).value;
    var remainder := SplitOnPreludeStart(masterlist).value.1;
    Sequences.TakeAndDrop(remainder, PreludeLength(remainder));
    Sequences.Regroup(s.beforePrelude, s.prelude, s.afterPrelude);
  }

  /** Every line of the prelude after the first is empty or starts with a space, a comment or a line break, and the
      text after the prelude starts a line with anything else. */
  lemma SplitMeaning(masterlist: string)
    requires Split(masterlist).Some?
    ensures var s := Split(masterlist).value;
            && masterlist == s.beforePrelude + s.prelude + s.afterPrelude
            && (forall i :: 0 <= i < |s.prelude| - 1 && s.prelude[i] == '\n' ==>
                              s.prelude[i + 1] in {' ', '#', '\n', '\r'})
            && (s.afterPrelude != "" ==>
                  && s.prelude != "" && s.prelude[|s.prelude| - 1] == '\n'
                  && s.afterPrelude[0] !in {' ', '#', '\n', '\r'})
  {
    SplitPartsMeaning(masterlist);
    var s := Split(masterlist).value;
    var remainder := SplitOnPreludeStart(masterlist).value.1;
    forall i | 0 <= i < |s.prelude| - 1 && s.prelude[i] == '\n'
      ensures s.prelude[i + 1] in {' ', '#', '\n', '\r'}
    {
      assert !EndsPrelude(remainder, i);
    }
    if s.afterPrelude != "" {
      assert EndsPrelude(remainder, |s.prelude| - 1);
    }
  }

  /** The parts make up the masterlist, the first ends in the first key that starts a line, and the second ends at the
      first line break that is followed by none of the four characters. */
  ghost predicate IsSplit(masterlist: string, s: SplitMasterlist) {
    && masterlist == s.beforePrelude + s.prelude + s.afterPrelude
    && (s.beforePrelude == "prelude:"
        || (|s.beforePrelude| >= 9 && s.beforePrelude[|s.beforePrelude| - 9..] == "\nprelude:"
            && NoKeyBefore(masterlist, |s.beforePrelude| - 9)))
    && (forall i :: 0 <= i < |s.prelude| - 1 && s.prelude[i] == '\n' ==> s.prelude[i + 1] in {' ', '#', '\n', '\r'})
    && (s.afterPrelude != "" ==>
          && s.prelude != "" && s.prelude[|s.prelude| - 1] == '\n'
          && s.afterPrelude[0] !in {' ', '#', '\n', '\r'})
  }

  lemma StartIsUnique(masterlist: string, before: string, rest: string)
    requires masterlist == before + rest
    requires before == "prelude:"
          || (|before| >= 9 && before[|before| - 9..] == "\nprelude:" && NoKeyBefore(masterlist, |before| - 9))
    ensures SplitOnPreludeStart(masterlist) == Some((before, rest))
  {
    if before == "prelude:" {
      assert masterlist[8..] == rest;
    } else {
      var pos := |before| - 9;
      assert masterlist[pos..][..9] == before[pos..];
      FindIs(masterlist, "\nprelude:", pos);
      assert masterlist[..|before|] == before && masterlist[|before|..] == rest;
    }
  }

  lemma LengthIs(prelude: string, after: string)
    requires forall i :: 0 <= i < |prelude| - 1 && prelude[i] == '\n' ==> prelude[i + 1] in {' ', '#', '\n', '\r'}
    requires after != "" ==> prelude != "" && prelude[|prelude| - 1] == '\n' && after[0] !in {' ', '#', '\n', '\r'}
    ensures PreludeLength(prelude + after) == |prelude|
  {
    var remainder := prelude + after;
    forall i | 0 <= i < |prelude| - 1
      ensures !EndsPrelude(remainder, i)
    {
      assert remainder[i] == prelude[i] && remainder[i + 1] == prelude[i + 1];
    }
    if after != "" {
      assert remainder[|prelude|] == after[0] && EndsPrelude(remainder, |prelude| - 1);
    }
    PreludeLengthUnique(remainder, |prelude|);
  }

  /** There are such parts exactly if there is a key, and they are the ones that are found. */
  lemma SplitIff(masterlist: string, s: SplitMasterlist)
    ensures Split(masterlist) == Some(s) <==> IsSplit(masterlist, s)
    ensures Split(masterlist).None? <==> NoKeyBefore(masterlist, |masterlist|)
  {
    StartMeaning(masterlist);
    if Split(masterlist) == Some(s) {
      SplitMeaning(masterlist);
    }
    if IsSplit(masterlist, s) {
      var remainder := s.prelude + s.afterPrelude;
      Sequences.Regroup(s.beforePrelude, s.prelude, s.afterPrelude);
      StartIsUnique(masterlist, s.beforePrelude, remainder);
      LengthIs(s.prelude, s.afterPrelude);
      assert remainder[..|s.prelude|] == s.prelude && remainder[|s.prelude|..] == s.afterPrelude;
    }
    if Split(masterlist).Some? {
      KeyIsThere(masterlist);
    }
  }

  lemma KeyIsThere(masterlist: string)
    requires Split(masterlist).Some?
    ensures !NoKeyBefore(masterlist, |masterlist|)
  {
    if !("prelude:" <= masterlist) {
      FoundThere(masterlist, PRELUDE_ON_NEW_LINE);
    }
  }

  // ---------- indenting the new prelude ----------

  function IndentPrelude(prelude: string): string {
    var indented := Replace(Replace("  " + Replace(prelude, "\n", "\n  "), "  \r\n", "\r\n"), "  \n", "\n");
    if EndsWith(indented, "\n  ") then TrimEndSpaces(indented) else indented
  }

  /** An indented line, without the two spaces before its end if it ends in two. */
  function IndentLine(line: string): string {
    ReplaceEnd(ReplaceEnd("  " + line, "  \r", "\r"), "  ", "")
  }

  /** Every line but the last is indented; the last is only indented if it is the only one or not empty. */
  function IndentLines(lines: seq<string>): (r: seq<string>)
    requires lines != []
    ensures |r| == |lines|
  {
    if |lines| == 1 then ["  " + lines[0]] else [IndentLine(lines[0])] + IndentLines(lines[1..])
  }

  function IndentedLines(lines: seq<string>): (r: seq<string>)
    requires lines != []
    ensures |r| == |lines|
  {
    var r := IndentLines(lines);
    if |lines| > 1 && lines[|lines| - 1] == "" then r[|r| - 1 := ""] else r
  }

  lemma {:induction false} IndentBreaks(lines: seq<string>)
    requires lines != [] && forall l <- lines :: '\n' !in l
    ensures "  " + Replace(Join(lines), "\n", "\n  ") == Join(Prefixed(lines))
  {
    var l := lines[0];
    if |lines| == 1 {
      ReplaceBreaksNone(l);
    } else {
      IndentBreaks(lines[1..]);
      var rest := Join(lines[1..]);
      ReplaceBreaksFirst(l, rest);
      assert Prefixed(lines)[1..] == Prefixed(lines[1..]);
      var replaced := Replace(rest, "\n", "\n  ");
      assert "  " + (l + "\n  " + replaced) == "  " + l + "\n" + ("  " + replaced);
    }
  }

  function Prefixed(lines: seq<string>): (r: seq<string>)
    requires lines != []
    ensures |r| == |lines| && forall i :: 0 <= i < |lines| ==> r[i] == "  " + lines[i]
  {
    if |lines| == 1 then ["  " + lines[0]] else ["  " + lines[0]] + Prefixed(lines[1..])
  }

  lemma {:induction false} ReplaceBreaksNone(l: string)
    requires '\n' !in l
    ensures Replace(l, "\n", "\n  ") == l
  {
    if l != "" {
      assert l[0] in l && l[0] != '\n';
      ReplaceBreaksNone(l[1..]);
    }
  }

  lemma {:induction false} ReplaceBreaksFirst(l: string, rest: string)
    requires '\n' !in l
    ensures Replace(l + "\n" + rest, "\n", "\n  ") == l + "\n  " + Replace(rest, "\n", "\n  ")
  {
    var s := l + "\n" + rest;
    if l == "" {
      assert s[1..] == rest && "\n" <= s;
      assert "" + "\n  " + Replace(rest, "\n", "\n  ") == "\n  " + Replace(rest, "\n", "\n  ");
    } else {
      assert s[0] == l[0] && !("\n" <= s);
      assert s[1..] == l[1..] + "\n" + rest;
      ReplaceBreaksFirst(l[1..], rest);
      assert [s[0]] + (l[1..] + "\n  " + Replace(rest, "\n", "\n  ")) == l + "\n  " + Replace(rest, "\n", "\n  ");
    }
  }

  function EndsReplaced(lines: seq<string>, core: string, short: string): (r: seq<string>)
    requires lines != []
    ensures |r| == |lines|
  {
    if |lines| == 1 then lines else [ReplaceEnd(lines[0], core, short)] + EndsReplaced(lines[1..], core, short)
  }

  lemma {:induction false} ReplaceJoined(lines: seq<string>, core: string, short: string)
    requires lines != [] && forall l <- lines :: '\n' !in l
    requires core != "" && '\n' !in core
    ensures Replace(Join(lines), core + "\n", short + "\n") == Join(EndsReplaced(lines, core, short))
  {
    if |lines| == 1 {
      ReplaceNone(lines[0], core, short + "\n");
    } else {
      ReplaceJoined(lines[1..], core, short);
      ReplaceFirstLine(lines[0], Join(lines[1..]), core, short);
      assert EndsReplaced(lines, core, short)[1..] == EndsReplaced(lines[1..], core, short);
    }
  }

  lemma {:induction false} EndsReplacedLines(lines: seq<string>, core: string, short: string)
    requires lines != [] && '\n' !in short && forall l <- lines :: '\n' !in l
    ensures forall l <- EndsReplaced(lines, core, short) :: '\n' !in l
  {
    if |lines| > 1 {
      EndsReplacedLines(lines[1..], core, short);
      assert lines[0] in lines;
      assert forall c <- ReplaceEnd(lines[0], core, short) :: c in lines[0] || c in short;
    }
  }

  lemma {:induction false} BothReplaced(lines: seq<string>)
    requires lines != []
    ensures EndsReplaced(EndsReplaced(Prefixed(lines), "  \r", "\r"), "  ", "") == IndentLines(lines)
  {
    if |lines| > 1 {
      var first := EndsReplaced(Prefixed(lines), "  \r", "\r");
      assert Prefixed(lines)[1..] == Prefixed(lines[1..]);
      assert first[1..] == EndsReplaced(Prefixed(lines[1..]), "  \r", "\r");
      BothReplaced(lines[1..]);
    }
  }

  lemma {:induction false} IndentLinesLast(lines: seq<string>)
    requires lines != []
    ensures IndentLines(lines)[|lines| - 1] == "  " + lines[|lines| - 1]
  {
    if |lines| > 1 {
      IndentLinesLast(lines[1..]);
    }
  }

  lemma {:induction false} JoinLast(lines: seq<string>) returns (front: string)
    requires |lines| > 1
    ensures Join(lines) == front + "\n" + lines[|lines| - 1]
    ensures forall l :: Join(lines[|lines| - 1 := l]) == front + "\n" + l
  {
    if |lines| == 2 {
      front := lines[0];
      assert lines[1..] == [lines[1]];
      forall l
        ensures Join(lines[1 := l]) == front + "\n" + l
      {
        assert lines[1 := l][1..] == [l];
      }
    } else {
      var rest := JoinLast(lines[1..]);
      front := lines[0] + "\n" + rest;
      assert front + "\n" + lines[|lines| - 1] == lines[0] + "\n" + (rest + "\n" + lines[|lines| - 1]);
      forall l
        ensures Join(lines[|lines| - 1 := l]) == front + "\n" + l
      {
        assert lines[|lines| - 1 := l][1..] == lines[1..][|lines| - 2 := l];
        assert front + "\n" + l == lines[0] + "\n" + (rest + "\n" + l);
      }
    }
  }

  /** Three global replacements amount to indenting line by line. */
  lemma IndentIsByLine(prelude: string)
    ensures IndentPrelude(prelude) == Join(IndentedLines(SplitLines(prelude)))
  {
    var lines := SplitLines(prelude);
    JoinSplit(prelude);
    IndentBreaks(lines);
    var prefixed := Prefixed(lines);
    assert forall l <- prefixed :: '\n' !in l;
    ReplaceJoined(prefixed, "  \r", "\r");
    EndsReplacedLines(prefixed, "  \r", "\r");
    var first := EndsReplaced(prefixed, "  \r", "\r");
    ReplaceJoined(first, "  ", "");
    BothReplaced(lines);
    assert "  \r" + "\n" == "  \r\n" && "\r" + "\n" == "\r\n" && "  " + "\n" == "  \n" && "" + "\n" == "\n";
    TrimsLastLine(lines);
  }

  lemma TrimsLastLine(lines: seq<string>)
    requires lines != [] && forall l <- lines :: '\n' !in l
    ensures var indented := Join(IndentLines(lines));
            (if EndsWith(indented, "\n  ") then TrimEndSpaces(indented) else indented) == Join(IndentedLines(lines))
  {
    var r := IndentLines(lines);
    IndentLinesLast(lines);
    if |lines| == 1 {
      OneLineHasNoBreak(lines[0]);
    } else {
      var last := lines[|lines| - 1];
      var front := JoinLast(r);
      if last == "" {
        TrimsEmptyLine(front);
      } else {
        LastCharsClash(front, last);
      }
    }
  }

  lemma OneLineHasNoBreak(l: string)
    requires '\n' !in l
    ensures !EndsWith("  " + l, "\n  ")
  {
    var s := "  " + l;
    assert forall c <- s :: c != '\n';
    assert |s| >= 3 ==> s[|s| - 3..][0] == s[|s| - 3];
  }

  lemma TrimsEmptyLine(front: string)
    ensures EndsWith(front + "\n" + ("  " + ""), "\n  ")
    ensures TrimEndSpaces(front + "\n" + ("  " + "")) == front + "\n" + ""
  {
    var broken := front + "\n";
    var s := broken + "  ";
    assert front + "\n" + ("  " + "") == s && broken + "" == broken;
    assert s[|s| - 3..] == "\n  ";
    assert s[..|s| - 1] == broken + " " && (broken + " ")[..|broken|] == broken;
    assert TrimEndSpaces(broken) == broken;
    assert TrimEndSpaces(broken + " ") == TrimEndSpaces(broken);
  }

  lemma LastCharsClash(front: string, last: string)
    requires last != "" && '\n' !in last
    ensures !EndsWith(front + "\n" + ("  " + last), "\n  ")
  {
    var s := front + "\n" + ("  " + last);
    var k := |s| - 3;
    assert s[k..][0] == s[k];
    if |last| >= 3 {
      assert s[k] == last[|last| - 3];
      assert last[|last| - 3] in last;
    } else {
      assert s[k] == ' ';
    }
  }

  // ---------- replacing the prelude ----------

  const ISIZE_MAX: int := 0x7fff_ffff_ffff_ffff

  /** lines() ignores a line break at the end, so it is counted separately. */
  function CountLines(s: string): nat {
    LinesCount(s) + if EndsWith(s, "\n") then 1 else 0
  }

  lemma CountLinesIs(s: string)
    ensures CountLines(s) == if s == "" then 0 else Newlines(s) + 1
  {
    LinesCountIs(s);
    if s != "" {
      assert s[|s| - 1..] == [s[|s| - 1]];
    }
  }

  function SaturatingSub(a: nat, b: nat): nat {
    if a >= b then a - b else 0
  }

  function Reassembled(before: string, prelude: string, after: string): string {
    if after == "" then before + "\n" + prelude else before + "\n" + prelude + "\n" + after
  }

  /** The old prelude includes the line breaks around it, and the new one does not. */
  function ReplaceSplit(s: SplitMasterlist, indented: string): Result<MasterlistWithReplacedPrelude,
                        PreludeSubstitutionOverflow> {
    var oldPreludeLineCount := SaturatingSub(CountLines(s.prelude), if s.afterPrelude == "" then 1 else 2);
    var preludeStartLine := CountLines(s.beforePrelude) + 1;
    var newPreludeLineCount := CountLines(indented);
    var preludeEndLine := preludeStartLine + SaturatingSub(newPreludeLineCount, 1);
    var linesAddedCount := newPreludeLineCount - oldPreludeLineCount;
    if -ISIZE_MAX <= linesAddedCount <= ISIZE_MAX then
      Ok(MasterlistWithReplacedPrelude(Reassembled(s.beforePrelude, indented, s.afterPrelude),
                                       Some(PreludeDiffSpan(preludeStartLine, preludeEndLine, linesAddedCount))))
    else Err(PreludeSubstitutionOverflow(newPreludeLineCount, oldPreludeLineCount))
  }

  function ReplacePrelude(masterlist: string, prelude: string): Result<MasterlistWithReplacedPrelude,
                          PreludeSubstitutionOverflow> {
    match Split(masterlist)
    case None => Ok(MasterlistWithReplacedPrelude(masterlist, None))
    case Some(s) => ReplaceSplit(s, IndentPrelude(prelude))
  }

  /** Each line of the indented prelude is the line of the prelude with that number, indented. */
  lemma IndentKeepsLines(prelude: string)
    ensures Newlines(IndentPrelude(prelude)) == Newlines(prelude) && IndentPrelude(prelude) != ""
    ensures forall i :: 0 <= i < |IndentPrelude(prelude)| - 1 && IndentPrelude(prelude)[i] == '\n' ==>
              ContinuesPrelude(IndentPrelude(prelude)[i + 1])
    ensures ContinuesPrelude(IndentPrelude(prelude)[0])
  {
    IndentIsByLine(prelude);
    var lines := SplitLines(prelude);
    var indented := IndentedLines(lines);
    IndentedLinesShape(lines);
    NewlinesJoin(indented);
    JoinContinues(indented);
  }

  ghost predicate StartsIndented(l: string) {
    l == "" || l[0] == ' ' || l[0] == '\r'
  }

  lemma {:induction false} IndentLinesShape(lines: seq<string>)
    requires lines != [] && forall l <- lines :: '\n' !in l
    ensures forall l <- IndentLines(lines) :: '\n' !in l && StartsIndented(l)
  {
    if |lines| == 1 {
      assert lines[0] in lines;
    } else {
      assert lines[0] in lines;
      IndentLineShape(lines[0]);
      IndentLinesShape(lines[1..]);
    }
  }

  lemma IndentLineShape(line: string)
    requires '\n' !in line
    ensures '\n' !in IndentLine(line) && StartsIndented(IndentLine(line))
  {
    var t := ReplaceEnd("  " + line, "  \r", "\r");
    assert forall c <- t :: c in "  " + line || c in "\r";
    assert forall c <- IndentLine(line) :: c in t;
  }

  lemma IndentedLinesShape(lines: seq<string>)
    requires lines != [] && forall l <- lines :: '\n' !in l
    ensures forall l <- IndentedLines(lines) :: '\n' !in l && StartsIndented(l)
    ensures |IndentedLines(lines)| > 1 || IndentedLines(lines)[0] != ""
  {
    IndentLinesShape(lines);
  }

  lemma {:induction false} JoinContinues(lines: seq<string>)
    requires lines != [] && forall l <- lines :: '\n' !in l && StartsIndented(l)
    ensures forall i :: 0 <= i < |Join(lines)| - 1 && Join(lines)[i] == '\n' ==> ContinuesPrelude(Join(lines)[i + 1])
    ensures Join(lines) != "" ==> ContinuesPrelude(Join(lines)[0])
    ensures |lines| > 1 || lines[0] != "" ==> Join(lines) != ""
  {
    assert lines[0] in lines;
    if |lines| > 1 {
      var rest := Join(lines[1..]);
      JoinContinues(lines[1..]);
      var s, k := Join(lines), |lines[0]|;
      assert s == lines[0] + "\n" + rest && s[k] == '\n';
      assert forall j :: 0 <= j < k ==> s[j] == lines[0][j] && lines[0][j] in lines[0];
      forall i | 0 <= i < |s| - 1 && s[i] == '\n'
        ensures ContinuesPrelude(s[i + 1])
      {
        if i == k {
          assert s[i + 1] == rest[0];
        } else if i > k {
          assert s[i] == rest[i - k - 1] && s[i + 1] == rest[i - k];
        }
      }
    } else {
      forall i | 0 <= i < |lines[0]|
        ensures lines[0][i] != '\n'
      {
        assert lines[0][i] in lines[0];
      }
    }
  }

  /** The text that replaces the masterlist, whatever the line counts. */
  function ReplacedText(masterlist: string, prelude: string): string {
    match Split(masterlist)
    case None => masterlist
    case Some(s) => Reassembled(s.beforePrelude, IndentPrelude(prelude), s.afterPrelude)
  }

  /** The replaced text splits at the same key, and everything before and after the prelude is as it was. */
  lemma ReplacedTextSplits(masterlist: string, prelude: string)
    ensures Split(masterlist).None? <==> Split(ReplacedText(masterlist, prelude)).None?
    ensures Split(masterlist).Some? ==>
              var s, t := Split(masterlist).value, Split(ReplacedText(masterlist, prelude)).value;
              && t.beforePrelude == s.beforePrelude && t.afterPrelude == s.afterPrelude
              && t.prelude == Between(prelude, s.afterPrelude)
  {
    if Split(masterlist).Some? {
      var s := Split(masterlist).value;
      var between := Between(prelude, s.afterPrelude);
      var remainder := between + s.afterPrelude;
      ReassembledIs(s.beforePrelude, prelude, s.afterPrelude);
      SameStart(masterlist, s.beforePrelude, remainder);
      SplitMeaning(masterlist);
      BetweenIsPrelude(prelude, s.afterPrelude);
      assert remainder[..|between|] == between && remainder[|between|..] == s.afterPrelude;
    }
  }

  lemma ReassembledIs(before: string, prelude: string, after: string)
    ensures Reassembled(before, IndentPrelude(prelude), after) == before + (Between(prelude, after) + after)
  {
    ReassembledFrom(before, IndentPrelude(prelude), after);
    BetweenAnd(IndentPrelude(prelude), after);
  }

  lemma BetweenAnd(indented: string, after: string)
    ensures "\n" + indented + (if after == "" then "" else "\n" + after)
            == "\n" + indented + (if after == "" then "" else "\n") + after
  {
    if after == "" {
      assert "\n" + indented + "" + after == "\n" + indented + "";
    } else {
      assert "\n" + indented + "\n" + after == "\n" + indented + ("\n" + after);
    }
  }

  /** What stands between the prelude key and the next top-level key in the replaced text. */
  function Between(prelude: string, after: string): string {
    "\n" + IndentPrelude(prelude) + (if after == "" then "" else "\n")
  }

  lemma BetweenIsPrelude(prelude: string, after: string)
    requires after != "" ==> !ContinuesPrelude(after[0])
    ensures PreludeLength(Between(prelude, after) + after) == |Between(prelude, after)|
  {
    var between := Between(prelude, after);
    var remainder := between + after;
    BetweenContinues(prelude, after);
    forall i | 0 <= i < |between| - 1
      ensures !EndsPrelude(remainder, i)
    {
      assert remainder[i] == between[i] && remainder[i + 1] == between[i + 1];
    }
    if after != "" {
      assert remainder[|between|] == after[0];
      assert EndsPrelude(remainder, |between| - 1);
    }
    PreludeLengthUnique(remainder, |between|);
  }

  lemma BetweenContinues(prelude: string, after: string)
    ensures var between := Between(prelude, after);
            forall i :: 0 <= i < |between| - 1 && between[i] == '\n' ==> ContinuesPrelude(between[i + 1])
  {
    IndentKeepsLines(prelude);
    var indented, between := IndentPrelude(prelude), Between(prelude, after);
    forall i | 0 <= i < |between| - 1 && between[i] == '\n'
      ensures ContinuesPrelude(between[i + 1])
    {
      if i > 0 && i < |indented| {
        assert between[i] == indented[i - 1] && between[i + 1] == indented[i];
        assert indented[(i - 1) + 1] == indented[i];
      }
    }
  }

  lemma SharedStretch(a: string, rest: string, s: string, j: nat, n: nat)
    requires a <= s && j + n <= |a|
    ensures (a + rest)[j..][..n] == a[j..j + n] == s[j..][..n]
  {
    assert s == a + s[|a|..];
  }

  /** A text with the same beginning has its first prelude key in the same place. */
  lemma SameStart(masterlist: string, before: string, remainder: string)
    requires SplitOnPreludeStart(masterlist).Some? && SplitOnPreludeStart(masterlist).value.0 == before
    ensures SplitOnPreludeStart(before + remainder) == Some((before, remainder))
  {
    var text := before + remainder;
    StartMeaning(masterlist);
    if before == PRELUDE_ON_FIRST_LINE {
      assert text[|before|..] == remainder;
    } else {
      var n, pos := |PRELUDE_ON_NEW_LINE|, |before| - |PRELUDE_ON_NEW_LINE|;
      SharedStretch(before, remainder, masterlist, 0, 8);
      assert text[0..] == text && masterlist[0..] == masterlist;
      SharedStretch(before, remainder, masterlist, pos, n);
      assert before[pos..pos + n] == before[pos..] == PRELUDE_ON_NEW_LINE;
      forall j | 0 <= j < pos
        ensures !(PRELUDE_ON_NEW_LINE <= text[j..])
      {
        SharedStretch(before, remainder, masterlist, j, n);
      }
      FindIs(text, PRELUDE_ON_NEW_LINE, pos);
      assert text[..|before|] == before && text[|before|..] == remainder;
    }
  }

  /** The last replacement wins: what an earlier one put there does not matter. */
  lemma LastWriteWins(masterlist: string, p: string, q: string)
    ensures ReplacedText(ReplacedText(masterlist, p), q) == ReplacedText(masterlist, q)
  {
    ReplacedTextSplits(masterlist, p);
  }

  /** The counts fit for any texts that fit in memory, and the result is then the replaced text. */
  lemma ReplacePreludeSucceeds(masterlist: string, prelude: string)
    requires |masterlist| < ISIZE_MAX && |prelude| < ISIZE_MAX
    ensures ReplacePrelude(masterlist, prelude).Ok?
    ensures ReplacePrelude(masterlist, prelude).value.masterlist == ReplacedText(masterlist, prelude)
    ensures ReplacePrelude(masterlist, prelude).value.meta.Some? <==> Split(masterlist).Some?
  {
    if Split(masterlist).Some? {
      var s := Split(masterlist).value;
      SplitMeaning(masterlist);
      CountLinesIs(s.prelude);
      CountLinesIs(IndentPrelude(prelude));
      IndentKeepsLines(prelude);
      NewlinesMonotonic(prelude, 0, |prelude|);
      NewlinesMonotonic(s.prelude, 0, |s.prelude|);
    }
  }

  /** How many lines the old prelude and the new one have, without the line breaks around the old one. */
  lemma LineCounts(masterlist: string, prelude: string, s: SplitMasterlist)
    requires Split(masterlist) == Some(s)
    ensures CountLines(IndentPrelude(prelude)) == Newlines(prelude) + 1
    ensures CountLines(s.beforePrelude) == Newlines(s.beforePrelude) + 1
    ensures SaturatingSub(CountLines(s.prelude), if s.afterPrelude == "" then 1 else 2)
         == (if s.afterPrelude == "" then Newlines(s.prelude) else Newlines(s.prelude) - 1)
    ensures s.afterPrelude != "" ==> Newlines(s.prelude) > 0
    ensures Newlines(IndentPrelude(prelude)) == Newlines(prelude)
  {
    CountLinesIs(s.beforePrelude);
    CountLinesIs(s.prelude);
    CountLinesIs(IndentPrelude(prelude));
    IndentKeepsLines(prelude);
    StartMeaning(masterlist);
    SplitMeaning(masterlist);
    if s.afterPrelude != "" {
      assert s.prelude == s.prelude[..|s.prelude| - 1] + "\n";
      NewlinesWithBreak(s.prelude[..|s.prelude| - 1]);
    }
  }

  /** The result for a replaced text with the given numbers of lines, where the new prelude starts on the given line. It
      is an error if the difference does not fit in a signed 64-bit number, in either direction. */
  function ReplacementFor(text: string, newCount: nat, oldCount: nat, start: nat)
    : Result<MasterlistWithReplacedPrelude, PreludeSubstitutionOverflow>
    requires newCount > 0
  {
    if newCount - oldCount <= 0x7fff_ffff_ffff_ffff && oldCount - newCount <= 0x7fff_ffff_ffff_ffff then
      Ok(MasterlistWithReplacedPrelude(text, Some(PreludeDiffSpan(start, start + newCount - 1, newCount - oldCount))))
    else Err(PreludeSubstitutionOverflow(newCount, oldCount))
  }

  lemma ReplacementFromCounts(s: SplitMasterlist, indented: string, newCount: nat, oldCount: nat, startLine: nat)
    requires newCount == CountLines(indented) > 0 && startLine == CountLines(s.beforePrelude) + 1
    requires oldCount == SaturatingSub(CountLines(s.prelude), if s.afterPrelude == "" then 1 else 2)
    ensures ReplaceSplit(s, indented)
         == ReplacementFor(Reassembled(s.beforePrelude, indented, s.afterPrelude), newCount, oldCount, startLine)
  {
  }

  lemma ReplacesSplit(masterlist: string, prelude: string, s: SplitMasterlist)
    requires Split(masterlist) == Some(s)
    ensures ReplacePrelude(masterlist, prelude) == ReplaceSplit(s, IndentPrelude(prelude))
    ensures ReplacedText(masterlist, prelude) == Reassembled(s.beforePrelude, IndentPrelude(prelude), s.afterPrelude)
  {
  }

  /** The whole result in terms of line breaks. */
  lemma ReplacementIs(masterlist: string, prelude: string, s: SplitMasterlist, newCount: nat, oldCount: nat,
                      start: nat)
    requires Split(masterlist) == Some(s)
    requires newCount == Newlines(prelude) + 1 && start == Newlines(s.beforePrelude) + 2
    requires oldCount == Newlines(s.prelude) - if s.afterPrelude == "" then 0 else 1
    ensures ReplacePrelude(masterlist, prelude)
         == ReplacementFor(ReplacedText(masterlist, prelude), newCount, oldCount, start)
  {
    LineCounts(masterlist, prelude, s);
    ReplacesSplit(masterlist, prelude, s);
    ReplacementFromCounts(s, IndentPrelude(prelude), newCount, oldCount, start);
  }

  // ---------- mapping lines back ----------

  /** Lines are numbered from one and columns from zero. Columns are integers so that undoing the indentation
      cannot underflow. */
  datatype Position = Position(line: nat, column: int)

  function AdjustLocation(pos: Position, span: PreludeDiffSpan): (Position, bool) {
    if pos.line > span.endLine then
      (Position(if span.linesAddedCount < 0 then pos.line + -span.linesAddedCount
                else SaturatingSub(pos.line, span.linesAddedCount),
                pos.column), false)
    else if pos.line >= span.startLine then (Position(pos.line - span.startLine + 1, pos.column - 2), true)
    else (pos, false)
  }

  ghost predicate Replaces(masterlist: string, prelude: string, s: SplitMasterlist, span: PreludeDiffSpan) {
    && Split(masterlist) == Some(s)
    && ReplacePrelude(masterlist, prelude).Ok?
    && ReplacePrelude(masterlist, prelude).value.meta == Some(span)
  }

  /** The span in terms of line breaks. */
  lemma SpanIs(masterlist: string, prelude: string, s: SplitMasterlist, span: PreludeDiffSpan)
    requires Replaces(masterlist, prelude, s, span)
    ensures SpanCounts(s, IndentPrelude(prelude), span)
    ensures Newlines(IndentPrelude(prelude)) == Newlines(prelude)
  {
    var newCount, oldCount := Newlines(prelude) + 1, Newlines(s.prelude) - if s.afterPrelude == "" then 0 else 1;
    LineCounts(masterlist, prelude, s);
    ReplacementIs(masterlist, prelude, s, newCount, oldCount, Newlines(s.beforePrelude) + 2);
  }

  ghost predicate SpanCounts(s: SplitMasterlist, indented: string, span: PreludeDiffSpan) {
    && span.startLine == Newlines(s.beforePrelude) + 2
    && span.endLine == span.startLine + Newlines(indented)
    && span.linesAddedCount == Newlines(indented) - Newlines(s.prelude) + (if s.afterPrelude == "" then 1 else 2)
  }

  lemma TextsAre(masterlist: string, prelude: string, s: SplitMasterlist)
    requires Split(masterlist) == Some(s)
    ensures masterlist == s.beforePrelude + s.prelude + s.afterPrelude
    ensures ReplacedText(masterlist, prelude) == Reassembled(s.beforePrelude, IndentPrelude(prelude), s.afterPrelude)
    ensures s.afterPrelude != "" ==> s.prelude != "" && s.prelude[|s.prelude| - 1] == '\n'
  {
    SplitMeaning(masterlist);
  }

  lemma NewlinesWithBreak(a: string)
    ensures Newlines(a + "\n") == Newlines(a) + 1
  {
    NewlinesConcat(a, "\n");
    NewlinesBreak();
  }

  /** How the texts before and after the replacement are made up, and the span between them. */
  ghost predicate Spliced(masterlist: string, text: string, s: SplitMasterlist, indented: string,
                          span: PreludeDiffSpan) {
    && masterlist == s.beforePrelude + s.prelude + s.afterPrelude
    && text == Reassembled(s.beforePrelude, indented, s.afterPrelude)
    && SpanCounts(s, indented, span)
    && (s.afterPrelude != "" ==> s.prelude != "" && s.prelude[|s.prelude| - 1] == '\n')
  }

  lemma ReplacingSplices(masterlist: string, prelude: string, s: SplitMasterlist, span: PreludeDiffSpan)
    requires Replaces(masterlist, prelude, s, span)
    ensures Spliced(masterlist, ReplacedText(masterlist, prelude), s, IndentPrelude(prelude), span)
  {
    SpanIs(masterlist, prelude, s, span);
    TextsAre(masterlist, prelude, s);
  }

  function PositionOf(text: string, pos: nat): Position
    requires pos <= |text|
  {
    Position(LineAt(text, pos), ColumnAt(text, pos))
  }

  /** The position that is reported for an error at pos, and whether it is in the prelude file. */
  function ReportedAt(text: string, pos: nat, span: PreludeDiffSpan): (Position, bool)
    requires pos <= |text|
  {
    AdjustLocation(PositionOf(text, pos), span)
  }

  /** Positions up to the prelude key are the same in both texts and are reported as they are. */
  lemma LinesBeforeUnchanged(masterlist: string, text: string, s: SplitMasterlist, indented: string,
                             span: PreludeDiffSpan, pos: nat)
    requires Spliced(masterlist, text, s, indented, span) && pos <= |s.beforePrelude|
    ensures pos <= |text| && pos <= |masterlist|
    ensures ReportedAt(text, pos, span) == (PositionOf(masterlist, pos), false)
  {
    var newRest := "\n" + indented + (if s.afterPrelude == "" then "" else "\n" + s.afterPrelude);
    ReassembledFrom(s.beforePrelude, indented, s.afterPrelude);
    BeforeLine(s.beforePrelude, newRest, pos);
    assert s.beforePrelude + (s.prelude + s.afterPrelude) == masterlist;
    BeforeLine(s.beforePrelude, s.prelude + s.afterPrelude, pos);
  }

  lemma BeforeLine(before: string, rest: string, pos: nat)
    requires pos <= |before|
    ensures LineAt(before + rest, pos) == LineAt(before, pos) <= 1 + Newlines(before)
    ensures ColumnAt(before + rest, pos) == ColumnAt(before, pos)
  {
    ColumnPrefix(before, rest, pos);
    NewlinesUpToPrefix(before, rest, pos);
    NewlinesMonotonic(before, pos, |before|);
  }

  lemma ReassembledFrom(before: string, indented: string, after: string)
    ensures Reassembled(before, indented, after)
         == before + ("\n" + indented + (if after == "" then "" else "\n" + after))
  {
    if after == "" {
      assert before + ("\n" + indented + "") == before + "\n" + indented;
    } else {
      assert before + ("\n" + indented + ("\n" + after)) == before + "\n" + indented + "\n" + after;
    }
  }

  lemma InsideLine(before: string, indented: string, after: string, k: nat)
    requires k <= |indented|
    ensures var text, pos := Reassembled(before, indented, after), |before| + 1 + k;
            && pos <= |text|
            && LineAt(text, pos) == Newlines(before) + 1 + LineAt(indented, k)
    ensures 1 <= LineAt(indented, k) <= 1 + Newlines(indented)
  {
    var head, rest := before + "\n", if after == "" then "" else "\n" + after;
    assert Reassembled(before, indented, after) == head + (indented + rest);
    NewlinesUpToSuffix(head, indented + rest, k);
    NewlinesUpToPrefix(indented, rest, k);
    NewlinesMonotonic(indented, k, |indented|);
    NewlinesWithBreak(before);
  }

  lemma AfterLine(before: string, indented: string, after: string, k: nat)
    requires after != "" && k <= |after|
    ensures var text := Reassembled(before, indented, after);
            var pos := |text| - |after| + k;
            && 0 <= pos <= |text|
            && LineAt(text, pos) == Newlines(before) + 2 + Newlines(indented) + LineAt(after, k)
  {
    var head := before + "\n" + indented;
    NewlinesUpToSuffix(head + "\n", after, k);
    NewlinesWithBreak(head);
    NewlinesConcat(before + "\n", indented);
    NewlinesWithBreak(before);
  }

  lemma OriginalLine(before: string, prelude: string, after: string, k: nat)
    requires k <= |after|
    ensures var text := before + prelude + after;
            LineAt(text, |text| - |after| + k) == Newlines(before) + Newlines(prelude) + LineAt(after, k)
  {
    NewlinesUpToSuffix(before + prelude, after, k);
    NewlinesConcat(before, prelude);
  }

  lemma InsideMapped(masterlist: string, text: string, s: SplitMasterlist, indented: string, span: PreludeDiffSpan,
                     k: nat)
    requires Spliced(masterlist, text, s, indented, span) && k <= |indented|
    ensures var pos := |s.beforePrelude| + 1 + k;
            && pos <= |text| && (k < |indented| ==> pos < |text| && text[pos] == indented[k])
            && ColumnAt(text, pos) == ColumnAt(indented, k)
            && ReportedAt(text, pos, span) == (Position(LineAt(indented, k), ColumnAt(indented, k) - 2), true)
  {
    InsideLine(s.beforePrelude, indented, s.afterPrelude, k);
    InsideColumn(s.beforePrelude, indented, s.afterPrelude, k);
  }

  lemma InsideColumn(before: string, indented: string, after: string, k: nat)
    requires k <= |indented|
    ensures var text, pos := Reassembled(before, indented, after), |before| + 1 + k;
            && pos <= |text| && ColumnAt(text, pos) == ColumnAt(indented, k)
            && (k < |indented| ==> pos < |text| && text[pos] == indented[k])
  {
    var rest := if after == "" then "" else "\n" + after;
    assert Reassembled(before, indented, after) == before + "\n" + (indented + rest);
    ColumnSuffix(before, indented + rest, k);
    ColumnPrefix(indented, rest, k);
  }

  /** The lines of the indented prelude are those of the prelude, indented one by one. */
  lemma IndentedPreludeLines(prelude: string)
    ensures SplitLines(IndentPrelude(prelude)) == IndentedLines(SplitLines(prelude))
  {
    IndentIsByLine(prelude);
    IndentedLinesShape(SplitLines(prelude));
    SplitJoin(IndentedLines(SplitLines(prelude)));
  }

  /** The character at column c of line i, from zero, of the new prelude is at position pos of the replaced
      text, and errors there are reported to be on line i + 1 of the prelude file. */
  ghost predicate ReportedInside(text: string, pos: nat, line: string, i: nat, c: nat, span: PreludeDiffSpan) {
    && pos <= |text| && (c < |line| ==> pos < |text| && text[pos] == line[c])
    && ColumnAt(text, pos) == c && ReportedAt(text, pos, span) == (Position(i + 1, c - 2), true)
  }

  /** Where a character of the new prelude, made up of the given lines, is in the replaced text. */
  function PlaceInside(before: string, lines: seq<string>, i: nat, c: nat): nat
    requires i < |lines|
  {
    |before| + 1 + (LineStart(lines, i) + c)
  }

  lemma JoinedInsideMapped(masterlist: string, text: string, s: SplitMasterlist, lines: seq<string>,
                           span: PreludeDiffSpan, i: nat, c: nat)
    requires lines != [] && Spliced(masterlist, text, s, Join(lines), span) && forall l <- lines :: '\n' !in l
    requires i < |lines| && c <= |lines[i]|
    ensures ReportedInside(text, PlaceInside(s.beforePrelude, lines, i, c), lines[i], i, c, span)
  {
    JoinAt(lines, i, c);
    InsideMapped(masterlist, text, s, Join(lines), span, LineStart(lines, i) + c);
  }

  /** Every position on a line of the new prelude is reported to be on the line of the prelude file with the same
      number, of which the line, as the replaced text has it, is the indentation. */
  lemma LinesInsideMapped(masterlist: string, prelude: string, s: SplitMasterlist, span: PreludeDiffSpan, i: nat,
                          c: nat)
    requires Replaces(masterlist, prelude, s, span)
    requires i < |SplitLines(prelude)| && c <= |IndentedLines(SplitLines(prelude))[i]|
    ensures var lines := IndentedLines(SplitLines(prelude));
            ReportedInside(ReplacedText(masterlist, prelude), PlaceInside(s.beforePrelude, lines, i, c), lines[i], i, c,
                           span)
  {
    var lines := IndentedLines(SplitLines(prelude));
    ReplacingSplices(masterlist, prelude, s, span);
    IndentIsByLine(prelude);
    IndentedLinesShape(SplitLines(prelude));
    JoinedInsideMapped(masterlist, ReplacedText(masterlist, prelude), s, lines, span, i, c);
  }

  /** How many characters at the end of an indented line are lost or moved, as it does not end in two spaces. */
  function LostAtEnd(line: string): nat {
    if EndsWith("  " + line, "  \r") then 3 else if EndsWith("  " + line, "  ") then 2 else 0
  }

  /** The last line is not shortened. */
  function LostOf(lines: seq<string>, i: nat): nat
    requires i < |lines|
  {
    if i == |lines| - 1 then 0 else LostAtEnd(lines[i])
  }

  /** Whether the character at column c of a line is still there, two columns on, after indenting. */
  predicate Keeps(indented: string, line: string, c: nat)
    requires c < |line|
  {
    c + 2 < |indented| && indented[c + 2] == line[c]
  }

  lemma IndentLineKeeps(line: string, c: nat)
    requires c < |line|
    ensures Keeps(IndentLine(line), line, c) <==> c + LostAtEnd(line) < |line|
  {
    var x := "  " + line;
    assert x[c + 2] == line[c];
    if EndsWith(x, "  \r") {
      ReturnMoved(x);
      assert x[|x| - 3..][0] == x[|x| - 3];
    } else if EndsWith(x, "  ") {
      assert IndentLine(line) == x[..|x| - 2];
    }
  }

  lemma ReturnMoved(x: string)
    requires EndsWith(x, "  \r")
    ensures ReplaceEnd(ReplaceEnd(x, "  \r", "\r"), "  ", "") == x[..|x| - 3] + "\r"
  {
    var t := x[..|x| - 3] + "\r";
    assert |t| >= 2 ==> t[|t| - 2..][1] == '\r';
  }

  lemma {:induction false} IndentLinesAt(lines: seq<string>, i: nat)
    requires i < |lines| - 1
    ensures IndentLines(lines)[i] == IndentLine(lines[i])
    decreases i
  {
    IndentLinesFirst(lines);
    if i > 0 {
      IndentLinesAt(lines[1..], i - 1);
      assert IndentLines(lines)[i] == IndentLines(lines)[1..][i - 1];
    }
  }

  lemma IndentLinesFirst(lines: seq<string>)
    requires |lines| > 1
    ensures IndentLines(lines)[0] == IndentLine(lines[0]) && IndentLines(lines)[1..] == IndentLines(lines[1..])
  {
  }

  /** Which characters indenting keeps. */
  lemma IndentedLineKeeps(lines: seq<string>, i: nat, c: nat)
    requires i < |lines| && c < |lines[i]|
    ensures Keeps(IndentedLines(lines)[i], lines[i], c) <==> c + LostOf(lines, i) < |lines[i]|
  {
    if i < |lines| - 1 {
      IndentLinesAt(lines, i);
      IndentLineKeeps(lines[i], c);
    } else {
      IndentLinesLast(lines);
    }
  }

  /** Every character of the prelude that the indentation keeps is reported at its line and column in the
      prelude file. */
  lemma CharactersInsideMapped(masterlist: string, prelude: string, s: SplitMasterlist, span: PreludeDiffSpan, i: nat,
                               c: nat) returns (pos: nat, q: nat)
    requires Replaces(masterlist, prelude, s, span)
    requires i < |SplitLines(prelude)| && c + LostOf(SplitLines(prelude), i) < |SplitLines(prelude)[i]|
    ensures q < |prelude| && LineAt(prelude, q) == i + 1 && ColumnAt(prelude, q) == c
    ensures pos < |ReplacedText(masterlist, prelude)| && ReplacedText(masterlist, prelude)[pos] == prelude[q]
    ensures ReportedAt(ReplacedText(masterlist, prelude), pos, span) == (PositionOf(prelude, q), true)
  {
    q := PlaceOf(prelude, i, c);
    IndentedLineKeeps(SplitLines(prelude), i, c);
    LinesInsideMapped(masterlist, prelude, s, span, i, c + 2);
    pos := PlaceInside(s.beforePrelude, IndentedLines(SplitLines(prelude)), i, c + 2);
  }

  lemma PlaceOf(prelude: string, i: nat, c: nat) returns (q: nat)
    requires i < |SplitLines(prelude)| && c < |SplitLines(prelude)[i]|
    ensures q < |prelude| && prelude[q] == SplitLines(prelude)[i][c]
    ensures LineAt(prelude, q) == i + 1 && ColumnAt(prelude, q) == c
  {
    JoinSplit(prelude);
    JoinAt(SplitLines(prelude), i, c);
    q := LineStart(SplitLines(prelude), i) + c;
  }

  /** A position after the new prelude is reported as its position in the original masterlist. */
  lemma LinesAfterMapped(masterlist: string, text: string, s: SplitMasterlist, indented: string, span: PreludeDiffSpan,
                         k: nat)
    requires Spliced(masterlist, text, s, indented, span) && s.afterPrelude != "" && k <= |s.afterPrelude|
    ensures var pos, original := |text| - |s.afterPrelude| + k, |masterlist| - |s.afterPrelude| + k;
            && 0 <= pos <= |text| && 0 <= original <= |masterlist|
            && ReportedAt(text, pos, span) == (PositionOf(masterlist, original), false)
  {
    AfterLine(s.beforePrelude, indented, s.afterPrelude, k);
    OriginalLine(s.beforePrelude, s.prelude, s.afterPrelude, k);
    ColumnSuffix(s.beforePrelude + "\n" + indented, s.afterPrelude, k);
    OriginalColumn(s.beforePrelude, s.prelude, s.afterPrelude, k);
  }

  lemma OriginalColumn(before: string, prelude: string, after: string, k: nat)
    requires prelude != "" && prelude[|prelude| - 1] == '\n' && k <= |after|
    ensures var text := before + prelude + after; ColumnAt(text, |text| - |after| + k) == ColumnAt(after, k)
  {
    var head := before + prelude[..|prelude| - 1];
    assert before + prelude + after == head + "\n" + after;
    ColumnSuffix(head, after, k);
  }

  /** ParseMetadataError, as far as its location is concerned. */
  class ParseError {
    var line: nat
    var column: int
    var isWithinReplacementPrelude: bool

    constructor (line: nat, column: int)
      ensures this.line == line && this.column == column && !isWithinReplacementPrelude
    {
      this.line, this.column, isWithinReplacementPrelude := line, column, false;
    }

    method Adjust(span: PreludeDiffSpan)
      modifies this
      ensures (Position(line, column), isWithinReplacementPrelude)
           == AdjustLocation(Position(old(line), old(column)), span)
    {
      var (pos, inPrelude) := AdjustLocation(Position(line, column), span);
      line := pos.line;
      column := pos.column;
      isWithinReplacementPrelude := inPrelude;
    }
  }
}
