/** `getGitBlame`: run `git blame` on a file, find the first output line
    that mentions a search pattern, and report the first parenthesised
    group of that line (the author, date and line number git prints). The
    process run is a parameter. */
module Blame {
  import opened Wrappers
  import opened Text

  const NoMatch: string := "No match found"
  const ReportHead: string := "Modification information for Package \""
  const ReportMiddle: string := "\" : "

  /** What running `git blame` produced: its output, its error stream, and
      the `message` of the error object when the process failed. */
  datatype BlameRun = BlameRun(stdout: string, stderr: string, error: Option<string>)

  /** The characters the regular-expression `.` does not match. */
  predicate LineTerminator(c: char)
  {
    c == '\n' || c == '\r' || c == '\U{2028}' || c == '\U{2029}'
  }

  /** No line terminator in `line[a..b]`. */
  predicate Clear(line: string, a: nat, b: nat)
    requires a <= b <= |line|
  {
    forall k :: a <= k < b ==> !LineTerminator(line[k])
  }

  /** `/\((.*?)\)/` can match from the `(` at `i` to the `)` at `j`. */
  predicate ParenAt(line: string, i: nat, j: nat)
  {
    i < j < |line| && line[i] == '(' && line[j] == ')' && Clear(line, i + 1, j)
  }

  /** The first `)` at or after `from`, provided no line terminator comes
      before it. */
  function CloseFrom(line: string, from: nat): (r: Option<nat>)
    requires from <= |line|
    ensures r.Some? ==> from <= r.value < |line| && line[r.value] == ')' && Clear(line, from, r.value)
    ensures r.Some? ==> forall k :: from <= k < r.value ==> line[k] != ')'
    ensures r.None? ==> forall j :: from <= j < |line| && line[j] == ')' ==> !Clear(line, from, j)
    decreases |line| - from
  {
    if from == |line| then None
    else if line[from] == ')' then Some(from)
    else if LineTerminator(line[from]) then None
    else CloseFrom(line, from + 1)
  }

  /** The leftmost match of `/\((.*?)\)/` starting at or after `from`, as
      the positions of its `(` and its `)`: the lazy group stops at the
      first `)`. */
  function MatchFrom(line: string, from: nat): (r: Option<(nat, nat)>)
    requires from <= |line|
    ensures r.Some? ==> from <= r.value.0 && ParenAt(line, r.value.0, r.value.1)
    ensures r.Some? ==> forall k :: r.value.0 < k < r.value.1 ==> line[k] != ')'
    ensures r.Some? ==> forall i, j :: from <= i < r.value.0 ==> !ParenAt(line, i, j)
    ensures r.None? ==> forall i, j :: from <= i ==> !ParenAt(line, i, j)
    decreases |line| - from
  {
    if from == |line| then None
    else if line[from] == '(' && CloseFrom(line, from + 1).Some? then
      Some((from, CloseFrom(line, from + 1).value))
    else
      var r := MatchFrom(line, from + 1);
      assert forall j :: !ParenAt(line, from, j) by {
        if line[from] == '(' {
          forall j | from < j < |line| && line[j] == ')'
            ensures !Clear(line, from + 1, j)
          {
          }
        }
      }
      r
  }

  /** The captured group of the first match in `line`, if any. */
  function Group(line: string): (g: Option<string>)
    ensures g.None? <==> forall i, j :: !ParenAt(line, i, j)
    ensures g.Some? ==> exists i: nat, j: nat ::
              && ParenAt(line, i, j) && g.value == line[i + 1..j]
              && (forall i': nat, j': nat :: i' < i ==> !ParenAt(line, i', j'))
              && (forall k :: i < k < j ==> line[k] != ')')
  {
    match MatchFrom(line, 0)
    case None => None
    case Some((i, j)) => Some(line[i + 1..j])
  }

  /** The index of the first line that includes `pattern`. */
  function FirstLineWith(lines: seq<string>, pattern: string, from: nat): (r: Option<nat>)
    requires from <= |lines|
    ensures r.Some? ==> from <= r.value < |lines| && Includes(lines[r.value], pattern)
    ensures r.Some? ==> forall k :: from <= k < r.value ==> !Includes(lines[k], pattern)
    ensures r.None? ==> forall k :: from <= k < |lines| ==> !Includes(lines[k], pattern)
    decreases |lines| - from
  {
    if from == |lines| then None
    else if Includes(lines[from], pattern) then Some(from)
    else FirstLineWith(lines, pattern, from + 1)
  }

  /** The report names the package and the group. */
  function Report(pattern: string, group: string): (s: string)
    ensures s != "" && s != NoMatch && Includes(s, group) && Includes(s, pattern)
  {
    var s := ReportHead + pattern + ReportMiddle + group;
    assert s[0] != NoMatch[0];
    OccursPlaced(ReportHead, pattern, ReportMiddle, group);
    OccursAppended(ReportHead + pattern + ReportMiddle, group);
    s
  }

  /** The loop over the output lines, which breaks at the first line that
      includes the pattern. */
  function BlameOfLines(lines: seq<string>, pattern: string): (out: string)
    ensures out == "" <==> forall k :: 0 <= k < |lines| ==> !Includes(lines[k], pattern)
  {
    match FirstLineWith(lines, pattern, 0)
    case None => ""
    case Some(k) =>
      match Group(lines[k])
      case None => NoMatch
      case Some(g) => Report(pattern, g)
  }

  /** `getGitBlame(filePath, fileName, searchPattern)`, given the run of
      `git blame` on that file. A rejection carries a plain string. */
  function GetGitBlame(filePath: string, fileName: string, searchPattern: string, run: BlameRun)
    : (r: Result<string, string>)
    ensures run.stderr != "" ==> r == Err("Error in git blame: " + run.stderr)
    ensures run.stderr == "" && run.error.Some? ==> r == Err("git blame failed with error: " + run.error.value)
    ensures r.Ok? <==> run.stderr == "" && run.error.None?
    ensures r.Ok? ==> r.value == BlameOfLines(Split(run.stdout, '\n'), searchPattern)
  {
    if run.stderr != "" then Err("Error in git blame: " + run.stderr)
    else if run.error.Some? then Err("git blame failed with error: " + run.error.value)
    else Ok(BlameOfLines(Split(run.stdout, '\n'), searchPattern))
  }

  // ---------------------------------------------------------------------
  // Properties

  /** Only the first line that includes the pattern matters: lines after
      it are never looked at. */
  lemma FirstMentionDecides(before: seq<string>, line: string, after: seq<string>, pattern: string)
    requires forall k :: 0 <= k < |before| ==> !Includes(before[k], pattern)
    requires Includes(line, pattern)
    ensures BlameOfLines(before + [line] + after, pattern) == BlameOfLines([line], pattern)
  {
    var lines := before + [line] + after;
    var f := FirstLineWith(lines, pattern, 0);
    assert lines[|before|] == line;
    assert forall k :: 0 <= k < |before| ==> lines[k] == before[k];
    assert f == Some(|before|);
    assert FirstLineWith([line], pattern, 0) == Some(0);
  }

  /** A mentioning line with a parenthesised group reports that group;
      one without reports the fixed "No match found". */
  lemma ReportNamesGroup(line: string, pattern: string)
    requires Includes(line, pattern)
    ensures Group(line).Some? ==> BlameOfLines([line], pattern) == Report(pattern, Group(line).value)
    ensures Group(line).None? ==> BlameOfLines([line], pattern) == NoMatch
  {
    assert FirstLineWith([line], pattern, 0) == Some(0);
  }

  /** A line terminator between `(` and `)` defeats the group: `.` does not
      match a carriage return. */
  lemma CarriageReturnBlocksGroup(a: string, b: string)
    requires forall k :: 0 <= k < |a| ==> a[k] != '(' && a[k] != ')'
    requires forall k :: 0 <= k < |b| ==> b[k] != '('
    ensures Group("(" + a + "\r" + b + ")").None?
  {
    var line := "(" + a + "\r" + b + ")";
    assert forall k :: 1 <= k <= |a| ==> line[k] == a[k - 1];
    assert line[|a| + 1] == '\r';
    assert forall k :: |a| + 2 <= k < |line| - 1 ==> line[k] == b[k - |a| - 2];
    forall i: nat, j: nat
      ensures !ParenAt(line, i, j)
    {
      if i < j < |line| && line[i] == '(' && line[j] == ')' {
        assert i == 0 && |a| + 1 < j;
        assert LineTerminator(line[|a| + 1]);
      }
    }
  }
}
