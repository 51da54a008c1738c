/** The activity of revision `com.example.test`. */
module TestApp {
  import opened Common
  import opened Strings
  import opened Lifecycle
  import opened Transcript
  import opened LogNaming
  import opened DisplayName
  import Timestamp

  const STOP_MESSAGE := "INFO: コマンドが強制終了されました\n"
  const TIMEOUT_MESSAGE := "INFO: コマンドがタイムアウトにより強制終了されました\n"

  /** The binary's path in front of `command`, unless `command` already
      starts with it. The test is textual: `path` followed by anything counts. */
  function Prefixed(path: string, command: string): (r: string)
    ensures path <= r
    ensures r == command <==> path <= command
    ensures r != command ==> r == path + " " + command
  {
    if path <= command then command else path + " " + command
  }

  /** Prefixing twice is prefixing once. */
  lemma PrefixedIdempotent(path: string, command: string)
    ensures Prefixed(path, Prefixed(path, command)) == Prefixed(path, command)
  {
  }

  /** The prefix test compares characters, not words: a different binary whose
      name merely begins with the selected one's is not prefixed. */
  lemma PrefixedIsTextual()
    ensures Prefixed("/data/tool", "/data/tool2 -v") == "/data/tool2 -v"
  {
    assert "/data/tool" <= "/data/tool2 -v" by {
      assert "/data/tool2 -v"[..10] == "/data/tool";
    }
  }

  /** The command the execute button runs for the typed `text`, or `None`
      when it refuses to run anything. */
  function Resolve(text: string, selected: Option<Binary>): (command: Option<string>)
    ensures command.None? <==> AllBlank(text) && selected.None?
    ensures command.Some? && Usable(selected) ==> command.value == Prefixed(selected.value.absolutePath, Trim(text))
    ensures command.Some? && !Usable(selected) ==> command.value == Trim(text)
  {
    var trimmed := Trim(text);
    if trimmed == [] && selected.None? then None
    else if selected.Some? && selected.value.fileExists then Some(Prefixed(selected.value.absolutePath, trimmed))
    else Some(trimmed)
  }

  /** Typing the command this revision ran, with the same binary selected,
      runs the same command again, as long as the typed text was not blank
      and the binary's path is absolute (as `getAbsolutePath` gives it). */
  lemma ResolveTwice(text: string, selected: Option<Binary>)
    requires !AllBlank(text)
    requires Usable(selected) ==> |selected.value.absolutePath| > 0 && selected.value.absolutePath[0] == '/'
    ensures Resolve(text, selected).Some?
    ensures Resolve(Resolve(text, selected).value, selected) == Resolve(text, selected)
  {
    var t := Trim(text);
    var command := Resolve(text, selected).value;
    TrimIdempotent(text);
    if Usable(selected) && command != t {
      var p := selected.value.absolutePath;
      assert command == p + " " + t;
      assert command[0] == p[0];
      assert command[|command| - 1] == t[|t| - 1];
      assert IsTrimmed(command);
      TrimmedIsFixed(command);
    }
  }

  /** With blank text and a selected binary, the command is the path and a
      trailing blank; typed back in, that blank is trimmed away, so the
      second run differs from the first. */
  lemma ResolveTwiceBlank()
    ensures Resolve("", Some(Binary("/b", true))) == Some("/b ")
    ensures Resolve("/b ", Some(Binary("/b", true))) == Some("/b")
  {
    assert Trim("") == "";
    assert !("/b" <= "");
    assert "/b " == "/b" + " " + "";
    var first := SkipBlanks("/b ", 0);
    assert first == 0;
    assert DropTrailingBlanks("/b ", 0, 3) == 2;
    assert "/b "[0..2] == "/b";
  }

  /** The only ways to the empty command: blank text with a selected binary
      whose file is gone, or whose path is itself empty. */
  lemma EmptyCommandExactly(text: string, selected: Option<Binary>)
    ensures Resolve(text, selected) == Some([]) <==>
      AllBlank(text) && selected.Some? && (!selected.value.fileExists || selected.value.absolutePath == [])
  {
    if Usable(selected) && Resolve(text, selected) == Some([]) {
      assert selected.value.absolutePath <= [];
    }
  }

  /** `getFileName`: as in the other revision, except that the scheme is
      compared by calling `equals` on it, so a URI without a scheme fails. */
  function GetFileName(uri: Uri, displayName: Option<string>): (name: Result<string>)
    ensures uri.scheme.None? ==> name == Failure(NullPointerException)
    ensures uri.scheme == Some("content") && displayName.Some? ==> name == Success(displayName.value)
    ensures uri.scheme.Some? && !(uri.scheme == Some("content") && displayName.Some?) ==>
      (name.Failure? <==> uri.path.None?) && (name.Success? ==> name.value == Basename(uri.path.value))
  {
    if uri.scheme.None? then Failure(NullPointerException)
    else
      var result := if uri.scheme.value == "content" then displayName else None;
      if result.Some? then Success(result.value)
      else if uri.path.None? then Failure(NullPointerException)
      else Success(Basename(uri.path.value))
  }

  /** `executeCommand(command, resultView)` run to the end of the relay, with
      the log saved at `now`. A command that cannot be started has its error
      appended, with a newline, to the cleared view; the empty command makes
      `Runtime.exec` throw `IllegalArgumentException`, which nothing catches. */
  function Execution(process: Proc, command: string, spawn: Spawn, now: Timestamp.DateTime): (run: Run)
    ensures run.fault.Some? <==> command == []
    ensures run.log.Some? <==> command != [] && spawn.Spawned?
    ensures run.process == (if run.log.Some? then Alive else process)
    ensures run.log.Some? ==> run.log.value.fileName == LogFileName(command, Timestamp.Format(now))
    ensures run.view != [] && run.view[0] == ""
  {
    if command == [] then Run(process, [""], None, Some(IllegalArgumentException))
    else
      match spawn
      case SpawnFailed(message) => Run(process, ["", ERROR_PREFIX + message + "\n"], None, None)
      case Spawned(stdout, stderr) =>
        Run(Alive, [""] + Entries(stdout, false) + Entries(stderr, true),
            Some(LogRecord(LogFileName(command, Timestamp.Format(now)), Log(stdout, stderr))), None)
  }

  /** After a run the view shows exactly the text that was saved. */
  lemma ExecutionShowsLog(process: Proc, command: string, stdout: seq<string>, stderr: seq<string>, now: Timestamp.DateTime)
    ensures var run := Execution(process, command, Spawned(stdout, stderr), now);
      command != [] ==> run.log.Some? && run.fault.None? && Concat(run.view) == run.log.value.content
  {
    var entries := Entries(stdout, false) + Entries(stderr, true);
    assert [""] + Entries(stdout, false) + Entries(stderr, true) == [""] + entries;
    ConcatAppend([""], entries);
    assert Concat([""]) == "";
  }

  /** A command that cannot be started leaves no log and no live process
      behind, only its error line after the cleared view. */
  lemma ExecutionSpawnFailed(process: Proc, command: string, message: string, now: Timestamp.DateTime)
    ensures var run := Execution(process, command, SpawnFailed(message), now);
      run.log.None? && run.process == process
      && (command != [] ==> run.fault.None? && Concat(run.view) == ERROR_PREFIX + message + "\n")
  {
    if command != [] {
      var line := ERROR_PREFIX + message + "\n";
      assert Concat(["", line]) == "" + Concat([line]);
      assert Concat([line]) == line;
    }
  }

  /** `processStream`: read `reader` to its end, appending each displayed
      line and a newline to `output` and to the view. */
  method ProcessStream(reader: LineReader, view: ResultView, output: OutputBuilder, isError: bool)
    requires reader.Valid()
    modifies reader, view, output
    ensures reader.Valid() && reader.pos == |reader.lines|
    ensures output.text == old(output.text) + Concat(Entries(old(reader.Remaining()), isError))
    ensures view.chunks == old(view.chunks) + Entries(old(reader.Remaining()), isError)
  {
    ghost var start := reader.pos;
    ghost var logged, shown := output.text, view.chunks;
    ghost var done: seq<string> := [];
    while true
      invariant reader.Valid() && start <= reader.pos
      invariant done == reader.lines[start..reader.pos]
      invariant output.text == logged + Concat(Entries(done, isError))
      invariant view.chunks == shown + Entries(done, isError)
      decreases |reader.lines| - reader.pos
    {
      ghost var k := reader.pos;
      var line := reader.ReadLine();
      if line.None? {
        break;
      }
      ReadOneMore(reader.lines, done, start, k);
      var displayedLine := if isError then ERROR_PREFIX + line.value else line.value;
      RelayLine(output.text, logged, view.chunks, shown, done, line.value, isError);
      output.Append(displayedLine);
      output.Append("\n");
      view.Append(displayedLine + "\n");
      done := done + [line.value];
    }
    assert done == old(reader.Remaining());
  }

  /** The relay, as submitted to its executor: both streams through
      `processStream` into one builder, then the log saved. */
  method RelayStreams(command: string, stdout: seq<string>, stderr: seq<string>, view: ResultView, timeStamp: string)
    returns (record: LogRecord)
    modifies view
    ensures view.chunks == old(view.chunks) + Entries(stdout, false) + Entries(stderr, true)
    ensures record == LogRecord(LogFileName(command, timeStamp), Log(stdout, stderr))
  {
    var reader := new LineReader(stdout);
    var errorReader := new LineReader(stderr);
    var output := new OutputBuilder();
    assert stdout[0..] == stdout && stderr[0..] == stderr;
    ProcessStream(reader, view, output, false);
    ProcessStream(errorReader, view, output, true);
    LogParts(stdout, stderr);
    assert [] + Concat(Entries(stdout, false)) == Concat(Entries(stdout, false));
    assert output.text == Log(stdout, stderr);
    record := LogRecord(LogFileName(command, timeStamp), output.text);
  }

  /** The activity: the process it last started and the binary the user
      picked, known by its absolute path. */
  class MainActivity {
    var currentProcess: Proc
    var selectedBinary: Option<string>

    constructor ()
      ensures currentProcess == NoProcess && selectedBinary == None
    {
      currentProcess := NoProcess;
      selectedBinary := None;
    }

    /** The picker's result: the path of the copied file, or `null` when
        copying failed, in which case the confirmation that reads its path fails. */
    method OnBinaryCopied(copied: Option<string>) returns (fault: Option<Fault>)
      modifies this
      ensures selectedBinary == copied && currentProcess == old(currentProcess)
      ensures fault.Some? <==> copied.None?
    {
      selectedBinary := copied;
      fault := if copied.None? then Some(NullPointerException) else None;
    }

    /** The clear button. */
    method ClearBinary()
      modifies this
      ensures selectedBinary == None && currentProcess == old(currentProcess)
    {
      selectedBinary := None;
    }

    /** `executeCommand`: clear the view, start the child, arm the guard,
        relay its output. */
    method ExecuteCommand(command: string, view: ResultView, spawn: Spawn, now: Timestamp.DateTime)
      returns (log: Option<LogRecord>, fault: Option<Fault>)
      modifies this, view
      ensures selectedBinary == old(selectedBinary)
      ensures Run(currentProcess, view.chunks, log, fault) == Execution(old(currentProcess), command, spawn, now)
    {
      view.SetText("");
      if command == [] {
        log, fault := None, Some(IllegalArgumentException);
        return;
      }
      fault := None;
      match spawn {
        case SpawnFailed(message) =>
          view.Append(ERROR_PREFIX + message + "\n");
          log := None;
        case Spawned(stdout, stderr) =>
          currentProcess := Alive;
          var record := RelayStreams(command, stdout, stderr, view, Timestamp.Format(now));
          log := Some(record);
      }
    }

    /** The execute button's listener, with what `exists()` answers for the
        selected file at the moment it is pressed. */
    method OnExecute(text: string, fileExists: bool, view: ResultView, spawn: Spawn, now: Timestamp.DateTime)
      returns (command: Option<string>, log: Option<LogRecord>, fault: Option<Fault>)
      modifies this, view
      ensures command == Resolve(text, AsSeen(old(selectedBinary), fileExists))
      ensures selectedBinary == old(selectedBinary)
      ensures command.None? ==> currentProcess == old(currentProcess) && view.chunks == old(view.chunks) && log.None? && fault.None?
      ensures command.Some? ==> Run(currentProcess, view.chunks, log, fault) == Execution(old(currentProcess), command.value, spawn, now)
    {
      command := Resolve(text, AsSeen(selectedBinary, fileExists));
      if command.None? {
        log, fault := None, None;
        return;
      }
      log, fault := ExecuteCommand(command.value, view, spawn, now);
    }

    /** The stop button. */
    method OnStop(view: ResultView) returns (destroyed: bool)
      modifies this, view
      ensures Termination(currentProcess, destroyed) == DestroyIfAlive(old(currentProcess))
      ensures selectedBinary == old(selectedBinary)
      ensures view.chunks == old(view.chunks) + (if destroyed then [STOP_MESSAGE] else [])
    {
      if currentProcess != NoProcess && currentProcess == Alive {
        currentProcess := Dead;
        destroyed := true;
        view.Append(STOP_MESSAGE);
      } else {
        destroyed := false;
      }
    }

    /** The guard, when its 30 seconds are up. */
    method OnTimeout(view: ResultView) returns (destroyed: bool)
      modifies this, view
      ensures Termination(currentProcess, destroyed) == DestroyIfAlive(old(currentProcess))
      ensures selectedBinary == old(selectedBinary)
      ensures view.chunks == old(view.chunks) + (if destroyed then [TIMEOUT_MESSAGE] else [])
    {
      if currentProcess == Alive {
        currentProcess := Dead;
        destroyed := true;
        view.Append(TIMEOUT_MESSAGE);
      } else {
        destroyed := false;
      }
    }

    /** The child ending on its own: `isAlive()` turns false, and the field
        keeps its reference. */
    method OnExit()
      modifies this
      ensures currentProcess == Exit(old(currentProcess)) && selectedBinary == old(selectedBinary)
    {
      if currentProcess == Alive {
        currentProcess := Dead;
      }
    }
  }
}
