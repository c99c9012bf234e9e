/**
 * TextFileHelpers: a file's text as a sequence of lines. Reading splits at "\r\n",
 * "\r" or "\n" (StreamReader.ReadLine); writing puts Environment.NewLine ("\r\n")
 * after every line but the last.
 */
module TextFile {
  import opened Text

  const NewLine: string := "\r\n"

  predicate IsLineBreak(c: char) { c == '\r' || c == '\n' }

  /** A line that contains no line-break character. */
  predicate NoBreaks(line: string)
  {
    forall k :: 0 <= k < |line| ==> !IsLineBreak(line[k])
  }

  /** Index of the first line-break character, or |s|. */
  function LineEnd(s: string): (e: nat)
    ensures e <= |s| && NoBreaks(s[..e])
    ensures e < |s| ==> IsLineBreak(s[e])
  {
    if s == [] || IsLineBreak(s[0]) then 0
    else
      var e := LineEnd(s[1..]);
      assert s[..1 + e] == [s[0]] + s[1..][..e];
      1 + e
  }

  /** StreamReader.ReadLine on non-empty input: the line, and how many characters it consumed. */
  function ReadLine(s: string): (r: (string, nat))
    requires s != []
    ensures 0 < r.1 <= |s| && |r.0| <= |s| && r.0 == s[..|r.0|] && NoBreaks(r.0)
  {
    var e := LineEnd(s);
    if e == |s| then (s, |s|)
    else if s[e] == '\r' && e + 1 < |s| && s[e + 1] == '\n' then (s[..e], e + 2)
    else (s[..e], e + 1)
  }

  /** The lines ReadFileContents yields: one per ReadLine until the input is exhausted. */
  function SplitLines(s: string): (lines: seq<string>)
    ensures forall i :: 0 <= i < |lines| ==> NoBreaks(lines[i])
    decreases |s|
  {
    if s == [] then []
    else
      var (line, consumed) := ReadLine(s);
      [line] + SplitLines(s[consumed..])
  }

  /** The text WriteFileContents writes: the lines joined by NewLine, no NewLine after the last. */
  function JoinLines(lines: seq<string>): string
  {
    if lines == [] then ""
    else if |lines| == 1 then lines[0]
    else lines[0] + NewLine + JoinLines(lines[1..])
  }

  /** WriteFileContents: `linesLeft` counts down, and the line that brings it to 0 gets no NewLine. */
  method WriteFileContents(outputLines: seq<string>) returns (written: string)
    ensures written == JoinLines(outputLines)
  {
    var linesLeft := |outputLines|;
    written := "";
    var i := 0;
    while i < |outputLines|
      invariant 0 <= i <= |outputLines|
      invariant linesLeft == |outputLines| - i
      invariant i < |outputLines| ==> written + JoinLines(outputLines[i..]) == JoinLines(outputLines)
      invariant i == |outputLines| ==> written == JoinLines(outputLines)
    {
      var line := outputLines[i];
      linesLeft := linesLeft - 1;
      var rest := outputLines[i..];
      if linesLeft == 0 {
        assert rest == [line];
        written := written + line;
      } else {
        assert rest[1..] == outputLines[i + 1..];
        assert JoinLines(rest) == line + NewLine + JoinLines(outputLines[i + 1..]);
        written := written + line + NewLine;
      }
      i := i + 1;
    }
    if |outputLines| == 0 {
      assert written == JoinLines(outputLines);
    }
  }

  /** ReadFileContents: read lines while the stream is not exhausted (Peek != -1). */
  method ReadFileContents(contents: string) returns (lines: seq<string>)
    ensures lines == SplitLines(contents)
  {
    lines := [];
    var stream := contents;
    while stream != []
      invariant lines + SplitLines(stream) == SplitLines(contents)
      decreases |stream|
    {
      var (line, consumed) := ReadLine(stream);
      ghost var later := SplitLines(stream[consumed..]);
      assert SplitLines(stream) == [line] + later;
      assert lines + [line] + later == lines + ([line] + later);
      lines := lines + [line];
      stream := stream[consumed..];
    }
  }

  /** No lines, no text. */
  lemma EmptyListEmptyFile()
    ensures JoinLines([]) == ""
    ensures SplitLines("") == []
  {
  }

  /** n >= 1 break-free lines are written with exactly n - 1 line feeds. */
  lemma {:induction false} NewLineCount(lines: seq<string>)
    requires |lines| >= 1
    requires forall i :: 0 <= i < |lines| ==> NoBreaks(lines[i])
    ensures CountChar(JoinLines(lines), '\n') == |lines| - 1
  {
    CountCharAbsent(lines[0], '\n');
    if |lines| > 1 {
      NewLineCount(lines[1..]);
      CountCharAppend(lines[0] + NewLine, JoinLines(lines[1..]), '\n');
      CountCharAppend(lines[0], NewLine, '\n');
    }
  }

  lemma ReadLineOfTerminated(x: string, y: string)
    requires NoBreaks(x)
    ensures ReadLine(x + NewLine + y) == (x, |x| + 2)
  {
    var s := x + NewLine + y;
    assert s == x + (NewLine + y);
    LineEndOfBreakFree(x, NewLine + y);
    assert s[|x|] == '\r' && s[|x| + 1] == '\n';
    assert s[..|x|] == x;
  }

  lemma ReadLineOfLast(x: string)
    requires NoBreaks(x) && x != []
    ensures ReadLine(x) == (x, |x|)
  {
    LineEndOfBreakFree(x, "");
    assert x + "" == x;
  }

  lemma {:induction false} LineEndOfBreakFree(x: string, y: string)
    requires NoBreaks(x)
    requires y == [] || IsLineBreak(y[0])
    ensures LineEnd(x + y) == |x|
  {
    if x == [] {
      assert x + y == y;
    } else {
      assert (x + y)[1..] == x[1..] + y;
      LineEndOfBreakFree(x[1..], y);
    }
  }

  /**
   * Reading back what was written gives the same lines, provided no line holds a line
   * break and the last line is not empty.
   */
  lemma {:induction false} ReadOfWrite(lines: seq<string>)
    requires forall i :: 0 <= i < |lines| ==> NoBreaks(lines[i])
    requires lines == [] || lines[|lines| - 1] != ""
    ensures SplitLines(JoinLines(lines)) == lines
  {
    if |lines| == 1 {
      ReadLineOfLast(lines[0]);
      assert JoinLines(lines)[|lines[0]|..] == "";
    } else if |lines| > 1 {
      var x, rest := lines[0], lines[1..];
      var s := JoinLines(lines);
      assert s == x + NewLine + JoinLines(rest);
      ReadLineOfTerminated(x, JoinLines(rest));
      assert s[|x| + 2..] == JoinLines(rest);
      ReadOfWrite(rest);
    }
  }

  /** A trailing empty line does not survive the trip: the final terminator ends no line. */
  lemma TrailingEmptyLineLost(lines: seq<string>)
    requires forall i :: 0 <= i < |lines| ==> NoBreaks(lines[i])
    requires lines != [] && lines[|lines| - 1] != ""
    ensures SplitLines(JoinLines(lines + [""])) == lines
  {
    JoinAppend(lines, "");
    assert JoinLines(lines + [""]) == JoinLines(lines) + NewLine;
    TerminatedRead(lines);
  }

  lemma {:induction false} JoinAppend(lines: seq<string>, last: string)
    requires lines != []
    ensures JoinLines(lines + [last]) == JoinLines(lines) + NewLine + last
  {
    if |lines| == 1 {
      assert lines + [last] == [lines[0], last];
    } else {
      assert (lines + [last])[1..] == lines[1..] + [last];
      JoinAppend(lines[1..], last);
    }
  }

  /** Join followed by one NewLine reads back as the lines themselves. */
  lemma {:induction false} TerminatedRead(lines: seq<string>)
    requires forall i :: 0 <= i < |lines| ==> NoBreaks(lines[i])
    requires lines != []
    ensures SplitLines(JoinLines(lines) + NewLine) == lines
  {
    var x := lines[0];
    var s := JoinLines(lines) + NewLine;
    if |lines| == 1 {
      assert s == x + NewLine + "";
      ReadLineOfTerminated(x, "");
      assert s[|x| + 2..] == "";
    } else {
      var rest := lines[1..];
      assert s == x + NewLine + (JoinLines(rest) + NewLine);
      ReadLineOfTerminated(x, JoinLines(rest) + NewLine);
      assert s[|x| + 2..] == JoinLines(rest) + NewLine;
      TerminatedRead(rest);
    }
  }
}
