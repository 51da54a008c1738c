/** The name of the file a run's log is saved under:
    `command.replaceAll("[^a-zA-Z0-9]", "_") + "_" + timeStamp + ".txt"`. */
module LogNaming {
  import opened Common
  import Timestamp

  /** The characters the class `[a-zA-Z0-9]` matches. */
  predicate IsAsciiAlnum(c: char) {
    'a' <= c <= 'z' || 'A' <= c <= 'Z' || '0' <= c <= '9'
  }

  /** The characters a sanitised command can hold. */
  predicate IsNameChar(c: char) {
    IsAsciiAlnum(c) || c == '_'
  }

  /** A saved log: its file name in the `command_logs` directory and its text. */
  datatype LogRecord = LogRecord(fileName: string, content: string)

  /** `command.replaceAll("[^a-zA-Z0-9]", "_")`: every character outside the
      class becomes '_', one for one. */
  function Sanitize(command: string): (r: string)
    ensures |r| == |command|
    ensures forall i :: 0 <= i < |r| && IsAsciiAlnum(command[i]) ==> r[i] == command[i]
    ensures forall i :: 0 <= i < |r| && !IsAsciiAlnum(command[i]) ==> r[i] == '_'
  {
    if command == [] then []
    else [if IsAsciiAlnum(command[0]) then command[0] else '_'] + Sanitize(command[1..])
  }

  /** Only letters, digits and '_' survive. */
  lemma SanitizedChars(command: string)
    ensures forall i :: 0 <= i < |command| ==> IsNameChar(Sanitize(command)[i])
  {
  }

  /** A command that is already made of name characters is its own sanitised form, and only then. */
  lemma SanitizeFixedPoint(command: string)
    ensures Sanitize(command) == command <==> forall i :: 0 <= i < |command| ==> IsNameChar(command[i])
  {
    if forall i :: 0 <= i < |command| ==> IsNameChar(command[i]) {
      assert forall i :: 0 <= i < |command| ==> Sanitize(command)[i] == command[i];
    } else {
      var i :| 0 <= i < |command| && !IsNameChar(command[i]);
      assert Sanitize(command)[i] != command[i];
    }
  }

  lemma SanitizeIdempotent(command: string)
    ensures Sanitize(Sanitize(command)) == Sanitize(command)
  {
    SanitizedChars(command);
    SanitizeFixedPoint(Sanitize(command));
  }

  /** Commands that differ only where characters are replaced share a name. */
  lemma SanitizeCollides()
    ensures Sanitize("ls -l") == Sanitize("ls_-l") == "ls__l"
  {
    assert Sanitize("l") == "l";
    assert Sanitize("-l") == "_l";
    assert Sanitize(" -l") == "__l" == Sanitize("_-l");
    assert Sanitize("s -l") == "s__l" == Sanitize("s_-l");
  }

  /** The file name a log is saved under. */
  function LogFileName(command: string, timeStamp: string): (name: string)
    ensures |name| == |command| + |timeStamp| + 5
    ensures name[..|command|] == Sanitize(command)
    ensures name[|command|] == '_'
    ensures name[|command| + 1..|name| - 4] == timeStamp
    ensures name[|name| - 4..] == ".txt"
  {
    Sanitize(command) + "_" + timeStamp + ".txt"
  }

  /** For one command, the name tells the time stamps apart. */
  lemma LogFileNameInjective(command: string, t1: string, t2: string)
    ensures LogFileName(command, t1) == LogFileName(command, t2) <==> t1 == t2
  {
  }

  /** The name holds no '/', so the log stays inside the log directory. */
  lemma LogFileNameHasNoSlash(command: string, timeStamp: string)
    requires '/' !in timeStamp
    ensures '/' !in LogFileName(command, timeStamp)
  {
    var name := LogFileName(command, timeStamp);
    assert name == Sanitize(command) + "_" + timeStamp + ".txt";
    SanitizedChars(command);
    assert '/' !in Sanitize(command);
  }

  /** The name of a log saved at `now`: twenty characters more than the
      command, and the moment can be read back from it. */
  lemma LogFileNameRecordsTime(command: string, now: Timestamp.DateTime)
    requires Timestamp.Valid(now)
    ensures |LogFileName(command, Timestamp.Format(now))| == |command| + 20
    ensures Timestamp.Parse(LogFileName(command, Timestamp.Format(now))[|command| + 1..|command| + 16]) == Some(now)
  {
    Timestamp.FormatShape(now);
    Timestamp.ParseFormat(now);
  }

  /** Runs of one command saved at different moments never share a file. */
  lemma DistinctMomentsDistinctFiles(command: string, t1: Timestamp.DateTime, t2: Timestamp.DateTime)
    requires Timestamp.Valid(t1) && Timestamp.Valid(t2) && t1 != t2
    ensures LogFileName(command, Timestamp.Format(t1)) != LogFileName(command, Timestamp.Format(t2))
  {
    Timestamp.FormatInjective(t1, t2);
    LogFileNameInjective(command, Timestamp.Format(t1), Timestamp.Format(t2));
  }
}
