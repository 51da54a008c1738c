/** The log text that the relay assembles from the child's two output streams,
    and the objects it works on: the line readers, the `StringBuilder` and the
    result view. */
module Transcript {
  import opened Common
  import opened Strings

  /** The marker in front of every standard-error line. */
  const ERROR_PREFIX := "ERROR: "

  /** The text shown for one line: as read for standard output, marked for standard error. */
  function Displayed(line: string, isError: bool): string {
    if isError then ERROR_PREFIX + line else line
  }

  /** A displayed line ends with the line read, and is marked exactly when it
      comes from standard error. */
  lemma DisplayedShape(line: string, isError: bool)
    ensures var d := Displayed(line, isError);
      |d| == |line| + (if isError then |ERROR_PREFIX| else 0)
      && d[|d| - |line|..] == line
      && (isError ==> d[..|ERROR_PREFIX|] == ERROR_PREFIX)
      && (!isError ==> d == line)
  {
  }

  function DisplayedLines(lines: seq<string>, isError: bool): seq<string> {
    seq(|lines|, k requires 0 <= k < |lines| => Displayed(lines[k], isError))
  }

  /** The chunk appended for one line: its displayed text and a newline. */
  function Entry(line: string, isError: bool): string {
    Displayed(line, isError) + "\n"
  }

  /** Every line followed by a newline. */
  function Terminated(lines: seq<string>): seq<string> {
    seq(|lines|, k requires 0 <= k < |lines| => lines[k] + "\n")
  }

  /** The chunks appended for `lines`, one per line, in order. */
  function Entries(lines: seq<string>, isError: bool): seq<string> {
    Terminated(DisplayedLines(lines, isError))
  }

  function Concat(chunks: seq<string>): string {
    if chunks == [] then [] else chunks[0] + Concat(chunks[1..])
  }

  /** The log of one run: every standard-output entry, then every standard-error entry. */
  function Log(stdout: seq<string>, stderr: seq<string>): string {
    Concat(Entries(stdout, false) + Entries(stderr, true))
  }

  /** The lines `readLine` gives back, one after another, from a text that
      holds no '\r': the text is cut after every '\n', and a last line without
      one still counts. (`readLine` also ends lines at '\r' and "\r\n"; that is
      not modelled.) */
  function SplitLines(text: string): seq<string>
    decreases |text|
  {
    if text == [] then []
    else
      var k := IndexOf(text, '\n');
      if k < 0 then [text] else [text[..k]] + SplitLines(text[k + 1..])
  }

  lemma {:induction false} ConcatAppend(a: seq<string>, b: seq<string>)
    ensures Concat(a + b) == Concat(a) + Concat(b)
  {
    if a == [] {
      assert a + b == b;
    } else {
      assert (a + b)[0] == a[0];
      assert (a + b)[1..] == a[1..] + b;
      ConcatAppend(a[1..], b);
    }
  }

  /** One more line: one more entry, and the text grows by it. */
  lemma EntriesSnoc(lines: seq<string>, line: string, isError: bool)
    ensures Entries(lines + [line], isError) == Entries(lines, isError) + [Entry(line, isError)]
    ensures Concat(Entries(lines + [line], isError)) == Concat(Entries(lines, isError)) + Entry(line, isError)
  {
    var done := Entries(lines, isError);
    assert Entries(lines + [line], isError) == done + [Entry(line, isError)];
    ConcatAppend(done, [Entry(line, isError)]);
    assert Concat([Entry(line, isError)]) == Entry(line, isError);
  }

  /** One relayed line: when the log text and the view hold the entries of
      the lines read so far, appending the next line's entry to both makes
      them hold the entries of one more line. */
  lemma RelayLine(text: string, logged: string, chunks: seq<string>, shown: seq<string>,
                  done: seq<string>, line: string, isError: bool)
    requires text == logged + Concat(Entries(done, isError))
    requires chunks == shown + Entries(done, isError)
    ensures text + Displayed(line, isError) + "\n" == logged + Concat(Entries(done + [line], isError))
    ensures chunks + [Displayed(line, isError) + "\n"] == shown + Entries(done + [line], isError)
  {
    EntriesSnoc(done, line, isError);
  }

  /** The lines read so far, and one more. */
  lemma ReadOneMore(lines: seq<string>, done: seq<string>, start: nat, k: nat)
    requires start <= k < |lines| && done == lines[start..k]
    ensures done + [lines[k]] == lines[start..k + 1]
  {
  }

  /** The text relayed from both streams is the run's log. */
  lemma RelayedIsLog(text: string, logged: string, stdout: seq<string>, stderr: seq<string>)
    requires logged == [] + Concat(Entries(stdout, false))
    requires text == logged + Concat(Entries(stderr, true))
    ensures text == Log(stdout, stderr)
  {
    LogParts(stdout, stderr);
  }

  /** Appending three pieces one by one appends their concatenation. */
  lemma AppendThree(text: string, a: string, b: string, c: string)
    ensures text + a + b + c == text + (a + b + c)
  {
  }

  /** The log is the standard-output part followed by the standard-error part. */
  lemma LogParts(stdout: seq<string>, stderr: seq<string>)
    ensures Log(stdout, stderr) == Concat(Entries(stdout, false)) + Concat(Entries(stderr, true))
    ensures Concat(Entries(stdout, false)) <= Log(stdout, stderr)
  {
    ConcatAppend(Entries(stdout, false), Entries(stderr, true));
  }

  /** A line without a newline, then a newline: splitting cuts exactly there. */
  lemma SplitFirst(first: string, rest: string)
    requires '\n' !in first
    ensures SplitLines(first + "\n" + rest) == [first] + SplitLines(rest)
  {
    var text := first + "\n" + rest;
    assert text[|first|] == '\n';
    assert forall j :: 0 <= j < |first| ==> text[j] == first[j];
    assert IndexOf(text, '\n') == |first|;
    assert text[..|first|] == first;
    assert text[|first| + 1..] == rest;
  }

  lemma TerminatedFirst(lines: seq<string>)
    requires lines != []
    ensures Concat(Terminated(lines)) == lines[0] + "\n" + Concat(Terminated(lines[1..]))
  {
    assert Terminated(lines)[0] == lines[0] + "\n";
    assert Terminated(lines)[1..] == Terminated(lines[1..]);
  }

  /** Splitting newline-terminated lines that hold no newline gives them back. */
  lemma {:induction false} SplitTerminated(lines: seq<string>)
    requires forall k :: 0 <= k < |lines| ==> '\n' !in lines[k]
    ensures SplitLines(Concat(Terminated(lines))) == lines
  {
    if lines != [] {
      TerminatedFirst(lines);
      SplitFirst(lines[0], Concat(Terminated(lines[1..])));
      SplitTerminated(lines[1..]);
    }
  }

  /** Reading the log back line by line yields every standard-output line in
      order, then every standard-error line in order with its marker: no
      standard-error line comes before a standard-output line. */
  lemma LogReadBack(stdout: seq<string>, stderr: seq<string>)
    requires forall k :: 0 <= k < |stdout| ==> '\n' !in stdout[k]
    requires forall k :: 0 <= k < |stderr| ==> '\n' !in stderr[k]
    ensures SplitLines(Log(stdout, stderr)) == stdout + DisplayedLines(stderr, true)
  {
    var shown := stdout + DisplayedLines(stderr, true);
    assert DisplayedLines(stdout, false) == stdout;
    assert Entries(stdout, false) + Entries(stderr, true) == Terminated(shown);
    assert '\n' !in ERROR_PREFIX;
    forall k | 0 <= k < |shown|
      ensures '\n' !in shown[k]
    {
      if k >= |stdout| {
        assert shown[k] == ERROR_PREFIX + stderr[k - |stdout|];
      }
    }
    SplitTerminated(shown);
  }

  /** A `BufferedReader` over one of the child's streams. */
  class LineReader {
    const lines: seq<string>
    var pos: nat

    ghost predicate Valid()
      reads this
    {
      pos <= |lines|
    }

    /** The lines not read yet. */
    function Remaining(): seq<string>
      reads this
      requires Valid()
    {
      lines[pos..]
    }

    constructor (lines: seq<string>)
      ensures Valid() && this.lines == lines && pos == 0
    {
      this.lines := lines;
      pos := 0;
    }

    /** `readLine()`: the next line, or `null` once the stream has ended. */
    method ReadLine() returns (line: Option<string>)
      requires Valid()
      modifies this
      ensures Valid()
      ensures old(pos) < |lines| ==> line == Some(lines[old(pos)]) && pos == old(pos) + 1
      ensures old(pos) == |lines| ==> line == None && pos == old(pos)
    {
      if pos < |lines| {
        line := Some(lines[pos]);
        pos := pos + 1;
      } else {
        line := None;
      }
    }
  }

  /** The `StringBuilder output` the log text is accumulated in. */
  class OutputBuilder {
    var text: string

    constructor ()
      ensures text == []
    {
      text := [];
    }

    method Append(s: string)
      modifies this
      ensures text == old(text) + s
    {
      text := text + s;
    }
  }

  /** The result view: the pieces of text it was given, in the order they arrived. */
  class ResultView {
    var chunks: seq<string>

    constructor ()
      ensures chunks == []
    {
      chunks := [];
    }

    /** `setText(s)`: the view shows `s` alone. */
    method SetText(s: string)
      modifies this
      ensures chunks == [s]
    {
      chunks := [s];
    }

    /** `append(s)`, as posted with `runOnUiThread`. */
    method Append(s: string)
      modifies this
      ensures chunks == old(chunks) + [s]
    {
      chunks := chunks + [s];
    }
  }
}
