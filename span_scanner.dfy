/**
 * Locating a task in the text of the task file, line by line: the brace-counting span
 * scanner of "show task details" and the plain label-line search of "edit task".
 *
 * Both look only at trimmed lines, and a trimmed line mentions a task when it contains both
 * `"label"` and the label in double quotes. The scanner only counts lines after the first
 * line that mentions `"tasks"` and `[`; counting is per line: a line holding `{` raises the
 * depth by one, a line holding `}` then lowers it by one, however many braces either holds.
 *
 * The specification functions take the trimmed lines (`TrimAll(lines)`); the methods trim
 * each line as they go, as the source does.
 */
module SpanScanner {
  import opened Strings
  import opened Sequences

  /** The three line numbers the scanner reports; -1 in all three when nothing matched. */
  datatype TaskSpan = TaskSpan(labelLine: int, startLine: int, endLine: int)

  const NOT_FOUND: TaskSpan := TaskSpan(-1, -1, -1)

  /** `depth` is `braceCount`, `inTasks` is `inTasksArray`, `blockStart` is `currentTaskStart`. */
  datatype ScanState = ScanState(depth: int, inTasks: bool, blockStart: int)

  const INITIAL: ScanState := ScanState(0, false, -1)

  function TrimAll(lines: seq<string>): (trimmed: seq<string>)
    ensures |trimmed| == |lines|
    ensures forall j :: 0 <= j < |lines| ==> trimmed[j] == Trim(lines[j])
  {
    Map(lines, Trim)
  }

  predicate IsTasksHeader(line: string) {
    Contains(line, "\"tasks\"") && Contains(line, "[")
  }

  function QuotedLabel(taskLabel: string): string {
    "\"" + taskLabel + "\""
  }

  /** The test both searches apply to a trimmed line. */
  predicate IsLabelLine(line: string, taskLabel: string) {
    Contains(line, "\"label\"") && Contains(line, QuotedLabel(taskLabel))
  }

  predicate MatchesAt(trimmed: seq<string>, taskLabel: string, j: int)
    requires 0 <= j < |trimmed|
  {
    IsLabelLine(trimmed[j], taskLabel)
  }

  /** The first line in `[lo, hi)` that mentions the label, or -1. */
  function FirstMatchIn(trimmed: seq<string>, taskLabel: string, lo: int, hi: int): (r: int)
    requires 0 <= lo <= hi <= |trimmed|
    ensures r == -1 || lo <= r < hi
    ensures r == -1 <==> forall j :: lo <= j < hi ==> !MatchesAt(trimmed, taskLabel, j)
    ensures r != -1 ==> MatchesAt(trimmed, taskLabel, r) && forall j :: lo <= j < r ==> !MatchesAt(trimmed, taskLabel, j)
    decreases hi - lo
  {
    if lo == hi then -1
    else if MatchesAt(trimmed, taskLabel, lo) then lo
    else FirstMatchIn(trimmed, taskLabel, lo + 1, hi)
  }

  /** A matching line with no match before it in the range is the one `FirstMatchIn` reports. */
  lemma FirstMatchUnique(trimmed: seq<string>, taskLabel: string, lo: int, hi: int, k: int)
    requires 0 <= lo <= k < hi <= |trimmed|
    requires MatchesAt(trimmed, taskLabel, k) && forall j :: lo <= j < k ==> !MatchesAt(trimmed, taskLabel, j)
    ensures FirstMatchIn(trimmed, taskLabel, lo, hi) == k
  {
  }

  datatype StepResult = Found(span: TaskSpan) | Next(state: ScanState)

  /** What the scanner does with (trimmed) line `i`: report the span, or move to the next state. */
  function Step(trimmed: seq<string>, taskLabel: string, i: int, st: ScanState): (r: StepResult)
    requires 0 <= i < |trimmed| && -1 <= st.blockStart < i
    ensures r.Next? ==> r.state.blockStart in {-1, i, st.blockStart}
    ensures r.Found? ==> && r.span.endLine == i
                         && r.span.startLine in {i, st.blockStart}
                         && 0 <= r.span.startLine
                         && r.span.labelLine == FirstMatchIn(trimmed, taskLabel, r.span.startLine, i + 1) != -1
  {
    var line := trimmed[i];
    if IsTasksHeader(line) then Next(st.(inTasks := true))
    else if !st.inTasks then Next(st)
    else
      var opens := Contains(line, "{");
      var start := if opens && st.depth == 0 then i else st.blockStart;
      var depth := if opens then st.depth + 1 else st.depth;
      if !Contains(line, "}") then Next(ScanState(depth, true, start))
      else if depth - 1 == 0 && start != -1 then
        var m := FirstMatchIn(trimmed, taskLabel, start, i + 1);
        if m != -1 then Found(TaskSpan(m, start, i)) else Next(ScanState(0, true, -1))
      else Next(ScanState(depth - 1, true, start))
  }

  /** The scan from line `i` on, in state `st`. */
  function ScanFrom(trimmed: seq<string>, taskLabel: string, i: int, st: ScanState): TaskSpan
    requires 0 <= i <= |trimmed| && -1 <= st.blockStart < i
    decreases |trimmed| - i
  {
    if i == |trimmed| then NOT_FOUND
    else
      match Step(trimmed, taskLabel, i, st)
      case Found(span) => span
      case Next(next) => ScanFrom(trimmed, taskLabel, i + 1, next)
  }

  /** The span "show task details" selects, or `NOT_FOUND`. */
  function FindTaskSpan(lines: seq<string>, taskLabel: string): TaskSpan {
    ScanFrom(TrimAll(lines), taskLabel, 0, INITIAL)
  }

  /** A span found from line `i` on closes at or after `i`, inside the file, around its block's first matching line. */
  lemma {:induction false} ScanFromShape(trimmed: seq<string>, taskLabel: string, i: int, st: ScanState)
    requires 0 <= i <= |trimmed| && -1 <= st.blockStart < i
    ensures var r := ScanFrom(trimmed, taskLabel, i, st);
            r == NOT_FOUND || (&& 0 <= r.startLine <= r.labelLine <= r.endLine < |trimmed|
                               && i <= r.endLine
                               && (r.startLine >= i || r.startLine == st.blockStart)
                               && r.labelLine == FirstMatchIn(trimmed, taskLabel, r.startLine, r.endLine + 1))
    decreases |trimmed| - i
  {
    if i < |trimmed| {
      match Step(trimmed, taskLabel, i, st)
      case Found(span) =>
      case Next(next) => ScanFromShape(trimmed, taskLabel, i + 1, next);
    }
  }

  /**
   * When the scanner finds the label, the block's first line is at or before the label line,
   * which is at or before the block's last line; the trimmed label line contains `"label"` and
   * the quoted label, and no earlier line of the block does.
   */
  lemma FoundSpanShape(lines: seq<string>, taskLabel: string)
    ensures var r := FindTaskSpan(lines, taskLabel);
            r == NOT_FOUND || (&& 0 <= r.startLine <= r.labelLine <= r.endLine < |lines|
                               && Contains(Trim(lines[r.labelLine]), "\"label\"")
                               && Contains(Trim(lines[r.labelLine]), QuotedLabel(taskLabel))
                               && forall j :: r.startLine <= j < r.labelLine ==> !IsLabelLine(Trim(lines[j]), taskLabel))
  {
    var trimmed := TrimAll(lines);
    ScanFromShape(trimmed, taskLabel, 0, INITIAL);
    var r := FindTaskSpan(lines, taskLabel);
    if r != NOT_FOUND {
      assert MatchesAt(trimmed, taskLabel, r.labelLine);
      assert trimmed[r.labelLine] == Trim(lines[r.labelLine]);
      forall j | r.startLine <= j < r.labelLine ensures !IsLabelLine(Trim(lines[j]), taskLabel) {
        assert !MatchesAt(trimmed, taskLabel, j);
      }
    }
  }

  /** `FirstMatchIn` reads only the lines of its range. */
  lemma FirstMatchAgree(ta: seq<string>, tb: seq<string>, taskLabel: string, lo: int, hi: int)
    requires 0 <= lo <= hi <= |ta| && hi <= |tb|
    requires forall j :: lo <= j < hi ==> ta[j] == tb[j]
    ensures FirstMatchIn(ta, taskLabel, lo, hi) == FirstMatchIn(tb, taskLabel, lo, hi)
  {
    var r := FirstMatchIn(ta, taskLabel, lo, hi);
    if r == -1 {
      assert forall j :: lo <= j < hi ==> !MatchesAt(tb, taskLabel, j) by {
        forall j | lo <= j < hi ensures !MatchesAt(tb, taskLabel, j) {
          assert !MatchesAt(ta, taskLabel, j);
        }
      }
    } else {
      assert MatchesAt(tb, taskLabel, r) by { assert MatchesAt(ta, taskLabel, r); }
      forall j | lo <= j < r ensures !MatchesAt(tb, taskLabel, j) {
        assert !MatchesAt(ta, taskLabel, j);
      }
      FirstMatchUnique(tb, taskLabel, lo, hi, r);
    }
  }

  /** `Step` on line `i` reads only line `i` and the lines of the open block. */
  lemma StepAgree(ta: seq<string>, tb: seq<string>, taskLabel: string, lo: int, i: int, st: ScanState)
    requires 0 <= lo <= i < |ta| && i < |tb| && -1 <= st.blockStart < i
    requires st.blockStart == -1 || lo <= st.blockStart
    requires forall j :: lo <= j <= i ==> ta[j] == tb[j]
    ensures Step(ta, taskLabel, i, st) == Step(tb, taskLabel, i, st)
  {
    var line := ta[i];
    assert tb[i] == line;
    var start := if Contains(line, "{") && st.depth == 0 then i else st.blockStart;
    if start != -1 {
      FirstMatchAgree(ta, tb, taskLabel, start, i + 1);
    }
  }

  /** A line that mentions `"tasks"` and `[` only switches the scan into the array: depth and block start are kept. */
  lemma HeaderLineSkipped(trimmed: seq<string>, taskLabel: string, i: int, st: ScanState)
    requires 0 <= i < |trimmed| && -1 <= st.blockStart < i
    requires IsTasksHeader(trimmed[i])
    ensures Step(trimmed, taskLabel, i, st) == Next(ScanState(st.depth, true, st.blockStart))
  {
  }

  /** Before the scan has entered the array, every other line leaves the state as it is. */
  lemma OutsideArrayLineSkipped(trimmed: seq<string>, taskLabel: string, i: int, st: ScanState)
    requires 0 <= i < |trimmed| && -1 <= st.blockStart < i
    requires !st.inTasks && !IsTasksHeader(trimmed[i])
    ensures Step(trimmed, taskLabel, i, st) == Next(st)
  {
  }

  /** From line `i` on, with no header line left, the scan finds nothing. */
  lemma {:induction false} NoHeaderFromHere(trimmed: seq<string>, taskLabel: string, i: int)
    requires 0 <= i <= |trimmed|
    requires forall j :: i <= j < |trimmed| ==> !IsTasksHeader(trimmed[j])
    ensures ScanFrom(trimmed, taskLabel, i, INITIAL) == NOT_FOUND
    decreases |trimmed| - i
  {
    if i < |trimmed| {
      OutsideArrayLineSkipped(trimmed, taskLabel, i, INITIAL);
      NoHeaderFromHere(trimmed, taskLabel, i + 1);
    }
  }

  /** A file with no line mentioning `"tasks"` and `[` yields -1 in all three results. */
  lemma NoHeaderNotFound(lines: seq<string>, taskLabel: string)
    requires forall j :: 0 <= j < |lines| ==> !IsTasksHeader(Trim(lines[j]))
    ensures FindTaskSpan(lines, taskLabel) == NOT_FOUND
  {
    NoHeaderFromHere(TrimAll(lines), taskLabel, 0);
  }

  /** The lines up to the first header line are skipped; the scan starts afresh after it. */
  lemma {:induction false} SkipToHeader(trimmed: seq<string>, taskLabel: string, i: int, h: int)
    requires 0 <= i <= h < |trimmed|
    requires IsTasksHeader(trimmed[h])
    requires forall j :: i <= j < h ==> !IsTasksHeader(trimmed[j])
    ensures ScanFrom(trimmed, taskLabel, i, INITIAL) == ScanFrom(trimmed, taskLabel, h + 1, ScanState(0, true, -1))
    decreases h - i
  {
    if i < h {
      OutsideArrayLineSkipped(trimmed, taskLabel, i, INITIAL);
      SkipToHeader(trimmed, taskLabel, i + 1, h);
    } else {
      HeaderLineSkipped(trimmed, taskLabel, i, INITIAL);
    }
  }

  /** Two files that agree from line `h` on scan alike from there, as long as no block opened before `h`. */
  lemma {:induction false} ScanFromAgree(ta: seq<string>, tb: seq<string>, taskLabel: string, h: int, i: int, st: ScanState)
    requires |ta| == |tb| && 0 <= h <= i <= |ta| && -1 <= st.blockStart < i
    requires st.blockStart == -1 || h <= st.blockStart
    requires forall j :: h <= j < |ta| ==> ta[j] == tb[j]
    ensures ScanFrom(ta, taskLabel, i, st) == ScanFrom(tb, taskLabel, i, st)
    decreases |ta| - i
  {
    if i < |ta| {
      StepAgree(ta, tb, taskLabel, h, i, st);
      match Step(ta, taskLabel, i, st)
      case Found(_) =>
      case Next(next) => ScanFromAgree(ta, tb, taskLabel, h, i + 1, next);
    }
  }

  /**
   * Scope: what comes before the first line that mentions `"tasks"` and `[` never affects the
   * result. Two files of the same length whose first header is line `h` and that agree from
   * `h` on give the same span, and that span is what a fresh scan after the header gives.
   */
  lemma BeforeHeaderIrrelevant(a: seq<string>, b: seq<string>, taskLabel: string, h: int)
    requires |a| == |b| && 0 <= h < |a|
    requires IsTasksHeader(Trim(a[h]))
    requires forall j :: 0 <= j < h ==> !IsTasksHeader(Trim(a[j])) && !IsTasksHeader(Trim(b[j]))
    requires forall j :: h <= j < |a| ==> a[j] == b[j]
    ensures FindTaskSpan(a, taskLabel) == ScanFrom(TrimAll(a), taskLabel, h + 1, ScanState(0, true, -1))
    ensures FindTaskSpan(a, taskLabel) == FindTaskSpan(b, taskLabel)
  {
    var ta, tb := TrimAll(a), TrimAll(b);
    assert tb[h] == Trim(b[h]) == Trim(a[h]);
    SkipToHeader(ta, taskLabel, 0, h);
    SkipToHeader(tb, taskLabel, 0, h);
    ScanFromAgree(ta, tb, taskLabel, h, h + 1, ScanState(0, true, -1));
  }

  /** Scanning a prefix of the file finds the same span if it closes inside the prefix, and nothing otherwise. */
  lemma {:induction false} ScanPrefix(trimmed: seq<string>, taskLabel: string, k: int, i: int, st: ScanState)
    requires 0 <= i <= k <= |trimmed| && -1 <= st.blockStart < i
    ensures var r := ScanFrom(trimmed, taskLabel, i, st);
            ScanFrom(trimmed[..k], taskLabel, i, st) == if r != NOT_FOUND && r.endLine < k then r else NOT_FOUND
    decreases k - i
  {
    ScanFromShape(trimmed, taskLabel, i, st);
    if i < k {
      StepAgree(trimmed[..k], trimmed, taskLabel, 0, i, st);
      match Step(trimmed, taskLabel, i, st)
      case Found(_) =>
      case Next(next) => ScanPrefix(trimmed, taskLabel, k, i + 1, next);
    }
  }

  /**
   * The scan stops at the first completed block that holds a matching line: the lines after
   * that block never matter, and no block closing before it holds a match. Scanning the
   * first `k` lines gives the span when it ends within them, and -1 in all three otherwise.
   */
  lemma StopsAtFirstMatchingBlock(lines: seq<string>, taskLabel: string, k: int)
    requires 0 <= k <= |lines|
    ensures var r := FindTaskSpan(lines, taskLabel);
            FindTaskSpan(lines[..k], taskLabel) == if r != NOT_FOUND && r.endLine < k then r else NOT_FOUND
  {
    assert TrimAll(lines[..k]) == TrimAll(lines)[..k];
    ScanPrefix(TrimAll(lines), taskLabel, k, 0, INITIAL);
  }

  /**
   * The two searches agree as far as they can: when the scanner finds the label, the
   * unscoped search of "edit task" finds a line at or before it; when that search finds
   * nothing, neither does the scanner.
   */
  lemma EditLineNotAfterSpanLabel(lines: seq<string>, taskLabel: string)
    ensures var r := FindTaskSpan(lines, taskLabel);
            var e := FirstMatchIn(TrimAll(lines), taskLabel, 0, |lines|);
            && (r != NOT_FOUND ==> 0 <= e <= r.labelLine)
            && (e == -1 ==> r == NOT_FOUND)
  {
    var trimmed := TrimAll(lines);
    ScanFromShape(trimmed, taskLabel, 0, INITIAL);
    var r := FindTaskSpan(lines, taskLabel);
    if r != NOT_FOUND {
      assert MatchesAt(trimmed, taskLabel, r.labelLine);
    }
  }

  /**
   * The search loop shared by `editTask` (over the whole file) and by the scanner (over one
   * block): the first line in `[lo, hi)` whose trimmed text mentions the label, or -1.
   */
  method SearchLabelLine(lines: seq<string>, taskLabel: string, lo: int, hi: int) returns (taskLineNumber: int)
    requires 0 <= lo <= hi <= |lines|
    ensures taskLineNumber == FirstMatchIn(TrimAll(lines), taskLabel, lo, hi)
  {
    ghost var trimmed := TrimAll(lines);
    taskLineNumber := -1;
    for i := lo to hi
      invariant forall k :: lo <= k < i ==> !MatchesAt(trimmed, taskLabel, k)
    {
      var line := Trim(lines[i]);
      if IsLabelLine(line, taskLabel) {
        taskLineNumber := i;
        FirstMatchUnique(trimmed, taskLabel, lo, hi, i);
        break;
      }
    }
  }

  /** The line "edit task" moves the cursor to: the first line anywhere in the file that mentions the label, or -1. */
  method EditTaskLine(lines: seq<string>, taskLabel: string) returns (taskLineNumber: int)
    ensures taskLineNumber == FirstMatchIn(TrimAll(lines), taskLabel, 0, |lines|)
  {
    taskLineNumber := SearchLabelLine(lines, taskLabel, 0, |lines|);
  }

  /**
   * The body of the `showTaskDetails` loop for line `i`: a `continue` is a `Next` with the
   * state the loop goes on with, and a found label is the span the loop breaks with.
   */
  method ScanLine(lines: seq<string>, taskLabel: string, i: int, st: ScanState) returns (r: StepResult)
    requires 0 <= i < |lines| && -1 <= st.blockStart < i
    ensures r == Step(TrimAll(lines), taskLabel, i, st)
  {
    ghost var trimmed := TrimAll(lines);
    var braceCount, currentTaskStart := st.depth, st.blockStart;
    var line := Trim(lines[i]);
    assert line == trimmed[i];

    if IsTasksHeader(line) {
      return Next(st.(inTasks := true));
    }
    if !st.inTasks {
      return Next(st);
    }

    if Contains(line, "{") {
      if braceCount == 0 {
        currentTaskStart := i;
      }
      braceCount := braceCount + 1;
    }

    if Contains(line, "}") {
      braceCount := braceCount - 1;
      if braceCount == 0 && currentTaskStart != -1 {
        var j := SearchLabelLine(lines, taskLabel, currentTaskStart, i + 1);
        if j != -1 {
          return Found(TaskSpan(j, currentTaskStart, i));
        }
        currentTaskStart := -1;
      }
    }
    r := Next(ScanState(braceCount, true, currentTaskStart));
  }

  /** The loop of `showTaskDetails`, stopping at the first line that reports a span. */
  method ShowTaskDetailsScan(lines: seq<string>, taskLabel: string)
    returns (taskLineNumber: int, taskStartLine: int, taskEndLine: int)
    ensures TaskSpan(taskLineNumber, taskStartLine, taskEndLine) == FindTaskSpan(lines, taskLabel)
  {
    ghost var trimmed := TrimAll(lines);
    taskLineNumber, taskStartLine, taskEndLine := -1, -1, -1;
    var braceCount := 0;
    var inTasksArray := false;
    var currentTaskStart := -1;

    for i := 0 to |lines|
      invariant -1 <= currentTaskStart < i
      invariant taskLineNumber == -1 && taskStartLine == -1 && taskEndLine == -1
      invariant ScanFrom(trimmed, taskLabel, i, ScanState(braceCount, inTasksArray, currentTaskStart))
                == FindTaskSpan(lines, taskLabel)
    {
      var r := ScanLine(lines, taskLabel, i, ScanState(braceCount, inTasksArray, currentTaskStart));
      match r
      case Found(span) =>
        taskLineNumber, taskStartLine, taskEndLine := span.labelLine, span.startLine, span.endLine;
        break;
      case Next(next) =>
        braceCount, inTasksArray, currentTaskStart := next.depth, next.inTasks, next.blockStart;
    }
  }
}
