/** The last error an emulator reports: a fold over its stderr lines, read from two channels in any order. */
module EmulatorLogs {
  import opened Common

  const ERROR_TAG := "ERROR   |"
  const WARNING_TAG := "WARNING |"
  const INFO_TAG := "INFO    |"

  datatype Log = Log(lastError: string, inError: bool)

  predicate StartsError(line: string) {
    ERROR_TAG <= line
  }

  predicate EndsError(line: string) {
    WARNING_TAG <= line || INFO_TAG <= line
  }

  function Message(line: string): string
    requires StartsError(line)
  {
    line[|ERROR_TAG|..]
  }

  /** The rule for one stderr line. */
  function Read(l: Log, line: string): Log {
    if StartsError(line) then Log(Message(line), true)
    else if EndsError(line) then l.(inError := false)
    else if l.inError then l.(lastError := l.lastError + "\n" + line)
    else l
  }

  function ReadAll(l: Log, lines: seq<string>): Log
    decreases lines
  {
    if lines == [] then l else ReadAll(Read(l, lines[0]), lines[1..])
  }

  predicate IsSpace(c: char) {
    || c == ' ' || '\t' <= c <= '\r' || c == '\U{85}' || c == '\U{A0}' || c == '\U{1680}'
    || '\U{2000}' <= c <= '\U{200A}' || c == '\U{2028}' || c == '\U{2029}' || c == '\U{202F}'
    || c == '\U{205F}' || c == '\U{3000}'
  }

  function TrimSpace(s: string): string
    decreases |s|
  {
    if s != "" && IsSpace(s[0]) then TrimSpace(s[1..])
    else if s != "" && IsSpace(s[|s| - 1]) then TrimSpace(s[..|s| - 1])
    else s
  }

  /** Space at both ends is gone, and only that. */
  lemma {:induction false} TrimmedIs(s: string) returns (left: string, right: string)
    ensures s == left + TrimSpace(s) + right
    ensures forall i :: 0 <= i < |left| ==> IsSpace(left[i])
    ensures forall i :: 0 <= i < |right| ==> IsSpace(right[i])
    ensures var t := TrimSpace(s); t != "" ==> !IsSpace(t[0]) && !IsSpace(t[|t| - 1])
    decreases |s|
  {
    hide IsSpace;
    left, right := "", "";
    if s != "" && IsSpace(s[0]) {
      left, right := TrimmedIs(s[1..]);
      assert s == [s[0]] + (left + TrimSpace(s[1..]) + right) == ([s[0]] + left) + TrimSpace(s) + right;
      left := [s[0]] + left;
    } else if s != "" && IsSpace(s[|s| - 1]) {
      var n := |s| - 1;
      left, right := TrimmedIs(s[..n]);
      assert s == (left + TrimSpace(s[..n]) + right) + [s[n]] == left + TrimSpace(s) + (right + [s[n]]);
      right := right + [s[n]];
    } else {
      assert s == "" + s + "";
    }
  }

  /**
   The log goroutine. While both channels are open, either line may come first; a channel that is
   closed and empty ends the first loop at any of its receives. Then stdout is drained, then stderr.
   */
  method ProcessLogs(stdout: seq<string>, stderr: seq<string>) returns (lastError: string)
    ensures lastError == TrimSpace(ReadAll(Log("", false), stderr).lastError)
  {
    var out, err := stdout, stderr;
    var log := Log("", false);
    while true
      invariant ReadAll(log, err) == ReadAll(Log("", false), stderr)
      decreases |out| + |err|
    {
      var fromOut: bool := *;
      if fromOut {
        if out == [] {
          break;
        }
        out := out[1..];
      } else {
        if err == [] {
          break;
        }
        log := ReadLine(log, err[0]);
        err := err[1..];
      }
    }
    while out != []
      decreases |out|
    {
      out := out[1..];
    }
    while err != []
      invariant ReadAll(log, err) == ReadAll(Log("", false), stderr)
      decreases |err|
    {
      log := ReadLine(log, err[0]);
      err := err[1..];
    }
    lastError := TrimSpace(log.lastError);
  }

  method ReadLine(l: Log, line: string) returns (l': Log)
    ensures l' == Read(l, line)
  {
    var lastError, inError := l.lastError, l.inError;
    if ERROR_TAG <= line {
      inError := true;
      lastError := line[|ERROR_TAG|..];
    } else if WARNING_TAG <= line || INFO_TAG <= line {
      inError := false;
    } else if inError {
      lastError := lastError + "\n" + line;
    }
    l' := Log(lastError, inError);
  }

  // ---------------------------------------------------------------- what the fold means

  /** The position of the last ERROR line, or -1. */
  function LastErrorAt(lines: seq<string>): (k: int)
    ensures -1 <= k < |lines|
    ensures k >= 0 ==> StartsError(lines[k])
    ensures forall i :: k < i < |lines| ==> !StartsError(lines[i])
  {
    if lines == [] then -1
    else if StartsError(lines[|lines| - 1]) then |lines| - 1
    else LastErrorAt(lines[..|lines| - 1])
  }

  /** The lines from `from` on up to the first WARNING or INFO line, each behind a line break. */
  function Continuation(lines: seq<string>, from: nat): string
    requires from <= |lines|
    decreases |lines| - from
  {
    if from == |lines| || EndsError(lines[from]) then "" else "\n" + lines[from] + Continuation(lines, from + 1)
  }

  ghost predicate Uninterrupted(lines: seq<string>, from: nat) {
    forall i :: from <= i < |lines| ==> !EndsError(lines[i])
  }

  /** The message of the last ERROR line with its continuation lines; nothing without an ERROR line. */
  function Report(lines: seq<string>): string {
    var k := LastErrorAt(lines);
    if k < 0 then "" else Message(lines[k]) + Continuation(lines, k + 1)
  }

  lemma {:induction false} ReadAllAppend(l: Log, lines: seq<string>, line: string)
    ensures ReadAll(l, lines + [line]) == Read(ReadAll(l, lines), line)
    decreases lines
  {
    if lines == [] {
      assert lines + [line] == [line];
    } else {
      assert (lines + [line])[1..] == lines[1..] + [line];
      ReadAllAppend(Read(l, lines[0]), lines[1..], line);
    }
  }

  lemma {:induction false} ContinuationAppend(lines: seq<string>, line: string, from: nat)
    requires from <= |lines|
    ensures Continuation(lines + [line], from) ==
            Continuation(lines, from) + if Uninterrupted(lines, from) && !EndsError(line) then "\n" + line else ""
    decreases |lines| - from
  {
    hide EndsError;
    if from < |lines| {
      assert (lines + [line])[from] == lines[from];
      if !EndsError(lines[from]) {
        ContinuationAppend(lines, line, from + 1);
        assert Uninterrupted(lines, from) <==> Uninterrupted(lines, from + 1);
        var tail := if Uninterrupted(lines, from) && !EndsError(line) then "\n" + line else "";
        assert "\n" + lines[from] + (Continuation(lines, from + 1) + tail) == ("\n" + lines[from] + Continuation(lines, from + 1)) + tail;
      }
    } else {
      assert (lines + [line])[from] == line;
      assert Continuation(lines + [line], from + 1) == "";
      assert "\n" + line + "" == "\n" + line;
    }
  }

  /** The fold is the report, and it is inside an error exactly when nothing ended the last one. */
  lemma {:induction false} FoldIsReport(lines: seq<string>)
    ensures var l := ReadAll(Log("", false), lines);
            && l.lastError == Report(lines)
            && (l.inError <==> LastErrorAt(lines) >= 0 && Uninterrupted(lines, LastErrorAt(lines) + 1))
    decreases |lines|
  {
    hide StartsError, EndsError, Message;
    if lines != [] {
      var before, line := lines[..|lines| - 1], lines[|lines| - 1];
      assert lines == before + [line];
      FoldIsReport(before);
      ReadAllAppend(Log("", false), before, line);
      hide ReadAll;
      var k := LastErrorAt(before);
      if !StartsError(line) && k >= 0 {
        ContinuationAppend(before, line, k + 1);
        assert Uninterrupted(lines, k + 1) <==> Uninterrupted(before, k + 1) && !EndsError(line);
      }
      if StartsError(line) {
        assert Message(line) + "" == Message(line);
      }
    }
  }

  /** The tags themselves. */
  lemma Tagged(text: string, calm: bool)
    ensures var error, end := "ERROR   |" + text, if calm then "INFO    |" + text else "WARNING |" + text;
            StartsError(error) && Message(error) == text && EndsError(end) && !StartsError(end)
  {
    assert (if calm then "INFO    |" + text else "WARNING |" + text)[0] == if calm then 'I' else 'W';
  }

  lemma LastOfThree(before: seq<string>, error: string, second: string, end: string)
    requires StartsError(error) && !StartsError(second) && !StartsError(end)
    ensures LastErrorAt(before + [error, second, end]) == |before|
  {
    hide StartsError;
    var n, lines := |before|, before + [error, second, end];
    assert lines[n] == error && lines[n + 1] == second && lines[n + 2] == end;
  }

  /** Whatever came before: an error, a line without a tag, and a line that ends the error. */
  lemma ReportOfThreeLines(before: seq<string>, first: string, second: string, third: string, calm: bool)
    requires !StartsError(second) && !EndsError(second)
    ensures var end := if calm then "INFO    |" + third else "WARNING |" + third;
            Report(before + ["ERROR   |" + first, second, end]) == first + "\n" + second
  {
    hide StartsError, EndsError, Message, LastErrorAt;
    var error, end := "ERROR   |" + first, if calm then "INFO    |" + third else "WARNING |" + third;
    Tagged(first, calm);
    Tagged(third, calm);
    LastOfThree(before, error, second, end);
    var n, lines := |before|, before + [error, second, end];
    assert lines[n] == error && lines[n + 1] == second && lines[n + 2] == end;
    assert Continuation(lines, n + 2) == "";
    assert Continuation(lines, n + 1) == "\n" + second + "" == "\n" + second;
    assert first + ("\n" + second) == first + "\n" + second;
  }

  /** For every schedule of the two channels the reported error is the last ERROR message of stderr, trimmed. */
  method LastError(stdout: seq<string>, stderr: seq<string>) returns (lastError: string)
    ensures lastError == TrimSpace(Report(stderr))
  {
    lastError := ProcessLogs(stdout, stderr);
    FoldIsReport(stderr);
  }
}
