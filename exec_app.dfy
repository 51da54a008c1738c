/** The activity of revision `com.coara.execapp`. */
module ExecApp {
  import opened Common
  import opened Strings
  import opened Lifecycle
  import opened Transcript
  import opened LogNaming
  import opened DisplayName
  import Timestamp

  const STOP_MESSAGE := "INFO: コマンドが強制終了されました\n"
  const TIMEOUT_MESSAGE := "INFO: タイムアウトにより強制終了されました\n"

  /** The command the execute button runs for the typed `text`, or `None`
      when it refuses to run anything. The selected binary's path goes in
      front whenever its file exists; a selected binary whose file is gone is
      passed over. */
  function Resolve(text: string, selected: Option<Binary>): (command: Option<string>)
    ensures command.None? <==> AllBlank(text) && selected.None?
    ensures command.Some? && Usable(selected) ==> command.value == selected.value.absolutePath + " " + Trim(text)
    ensures command.Some? && !Usable(selected) ==> command.value == Trim(text)
  {
    var trimmed := Trim(text);
    if trimmed == [] && selected.None? then None
    else if selected.Some? && selected.value.fileExists then Some(selected.value.absolutePath + " " + trimmed)
    else Some(trimmed)
  }

  /** A selected binary whose file does not exist changes nothing, except
      that blank text then resolves to the empty command instead of being
      refused; `Runtime.exec` rejects that one (`EmptyCommandFails`). */
  lemma MissingBinaryIgnored(text: string, binary: Binary)
    requires !binary.fileExists
    ensures Resolve(text, Some(binary)) == Some(Trim(text))
    ensures !AllBlank(text) ==> Resolve(text, Some(binary)) == Resolve(text, None)
  {
  }

  /** The only way to the empty command: blank text with a selected binary
      whose file is gone. */
  lemma EmptyCommandExactly(text: string, selected: Option<Binary>)
    ensures Resolve(text, selected) == Some([]) <==> AllBlank(text) && selected.Some? && !selected.value.fileExists
  {
    if Usable(selected) {
      assert |Resolve(text, selected).value| >= 1;
    }
  }

  /** This revision prepends unconditionally: a command that already starts
      with the binary's path, typed in again, gets the path a second time and
      so differs from the command it came from. */
  lemma ResolvePrependsAgain(text: string, binary: Binary)
    requires binary.fileExists && !AllBlank(text)
    requires |binary.absolutePath| > 0 && binary.absolutePath[0] == '/'
    ensures var p, first := binary.absolutePath, Resolve(text, Some(binary)).value;
      Resolve(first, Some(binary)) == Some(p + " " + p + " " + Trim(text))
      && Resolve(first, Some(binary)) != Some(first)
  {
    var p, t := binary.absolutePath, Trim(text);
    var first := p + " " + t;
    assert first[0] == p[0];
    assert first[|first| - 1] == t[|t| - 1];
    assert IsTrimmed(first);
    TrimmedIsFixed(first);
    assert p + " " + first == p + " " + p + " " + t;
  }

  /** `getFileName`: the display name the content provider reports for a
      `content` URI, if any (`displayName`; `None` when the query finds no row
      or a null name); otherwise the part of the path after its last '/'. */
  function GetFileName(uri: Uri, displayName: Option<string>): (name: Result<string>)
    ensures uri.scheme == Some("content") && displayName.Some? ==> name == Success(displayName.value)
    ensures !(uri.scheme == Some("content") && displayName.Some?) ==>
      (name.Failure? <==> uri.path.None?) && (name.Success? ==> name.value == Basename(uri.path.value))
    ensures name.Success? && '/' in name.value ==> uri.scheme == Some("content") && displayName == Some(name.value)
  {
    var result := if uri.scheme == Some("content") then displayName else None;
    if result.Some? then Success(result.value)
    else if uri.path.None? then Failure(NullPointerException)
    else Success(Basename(uri.path.value))
  }

  /** `executeCommand(command, resultView)` run to the end of the relay, with
      the log saved at `now`. `Runtime.exec` throws `IllegalArgumentException`
      for the empty command; it is not an `IOException`, so nothing catches it. */
  function Execution(process: Proc, command: string, spawn: Spawn, now: Timestamp.DateTime): (run: Run)
    ensures run.fault.Some? <==> command == []
    ensures run.log.Some? <==> command != [] && spawn.Spawned?
    ensures run.process == (if run.log.Some? then Alive else process)
    ensures run.log.Some? ==> run.log.value.fileName == LogFileName(command, Timestamp.Format(now))
    ensures run.view != [] && run.view[0] == (if command != [] && spawn.SpawnFailed? then ERROR_PREFIX + spawn.message else "")
  {
    if command == [] then Run(process, [""], None, Some(IllegalArgumentException))
    else
      match spawn
      case SpawnFailed(message) => Run(process, [ERROR_PREFIX + message], None, None)
      case Spawned(stdout, stderr) =>
        Run(Alive, [""] + Entries(stdout, false) + Entries(stderr, true),
            Some(LogRecord(LogFileName(command, Timestamp.Format(now)), Log(stdout, stderr))), None)
  }

  /** After a run the view shows exactly the text that was saved. */
  lemma ExecutionShowsLog(process: Proc, command: string, stdout: seq<string>, stderr: seq<string>, now: Timestamp.DateTime)
    ensures var run := Execution(process, command, Spawned(stdout, stderr), now);
      command != [] ==> run.log.Some? && run.fault.None? && Concat(run.view) == run.log.value.content
  {
    var entries := Entries(stdout, false) + Entries(stderr, true);
    assert [""] + Entries(stdout, false) + Entries(stderr, true) == [""] + entries;
    ConcatAppend([""], entries);
    assert Concat([""]) == "";
  }

  /** A command that cannot be started leaves no log and no live process behind. */
  lemma ExecutionSpawnFailed(process: Proc, command: string, message: string, now: Timestamp.DateTime)
    ensures var run := Execution(process, command, SpawnFailed(message), now);
      run.log.None? && run.process == process
      && (command != [] ==> run.fault.None? && Concat(run.view) == ERROR_PREFIX + message)
  {
  }

  /** Blank text with a binary whose file is gone: the empty command, which
      ends the listener with `IllegalArgumentException` after clearing the
      view, whatever the child would have done. */
  lemma EmptyCommandFails(text: string, binary: Binary, process: Proc, spawn: Spawn, now: Timestamp.DateTime)
    requires AllBlank(text) && !binary.fileExists
    ensures Resolve(text, Some(binary)) == Some([])
    ensures Execution(process, [], spawn, now) == Run(process, [""], None, Some(IllegalArgumentException))
  {
    EmptyCommandExactly(text, Some(binary));
  }

  /** The relay, as submitted to its executor: read standard output to its
      end, then standard error, appending each line to the log text and to
      the view, then save the log. */
  method RelayStreams(command: string, stdout: seq<string>, stderr: seq<string>, view: ResultView, timeStamp: string)
    returns (record: LogRecord)
    modifies view
    ensures view.chunks == old(view.chunks) + Entries(stdout, false) + Entries(stderr, true)
    ensures record == LogRecord(LogFileName(command, timeStamp), Log(stdout, stderr))
  {
    var reader := new LineReader(stdout);
    var errorReader := new LineReader(stderr);
    var output: string := [];
    ghost var logged, shown := output, view.chunks;
    ghost var done: seq<string> := [];
    while true
      invariant reader.Valid() && errorReader.Valid() && errorReader.pos == 0
      invariant done == stdout[..reader.pos]
      invariant output == logged + Concat(Entries(done, false))
      invariant view.chunks == shown + Entries(done, false)
      decreases |stdout| - reader.pos
    {
      ghost var k := reader.pos;
      var line := reader.ReadLine();
      if line.None? {
        break;
      }
      ReadOneMore(stdout, done, 0, k);
      RelayLine(output, logged, view.chunks, shown, done, line.value, false);
      output := output + line.value + "\n";
      view.Append(line.value + "\n");
      done := done + [line.value];
    }
    assert done == stdout;
    logged, shown := output, view.chunks;
    done := [];
    while true
      invariant errorReader.Valid()
      invariant done == stderr[..errorReader.pos]
      invariant output == logged + Concat(Entries(done, true))
      invariant view.chunks == shown + Entries(done, true)
      decreases |stderr| - errorReader.pos
    {
      ghost var k := errorReader.pos;
      var line := errorReader.ReadLine();
      if line.None? {
        break;
      }
      ReadOneMore(stderr, done, 0, k);
      RelayLine(output, logged, view.chunks, shown, done, line.value, true);
      AppendThree(output, ERROR_PREFIX, line.value, "\n");
      output := output + ERROR_PREFIX + line.value + "\n";
      view.Append(ERROR_PREFIX + line.value + "\n");
      done := done + [line.value];
    }
    assert done == stderr;
    RelayedIsLog(output, logged, stdout, stderr);
    record := LogRecord(LogFileName(command, timeStamp), output);
  }

  /** The activity: the process it last started and the binary the user
      picked, known by its absolute path. */
  class MainActivity {
    var currentProcess: Proc
    var selectedBinary: Option<string>

    constructor ()
      ensures currentProcess == NoProcess && selectedBinary == None
    {
      currentProcess := NoProcess;
      selectedBinary := None;
    }

    /** The picker's result: the path of the copied file, or `null` when copying failed. */
    method OnBinaryCopied(copied: Option<string>)
      modifies this
      ensures selectedBinary == copied && currentProcess == old(currentProcess)
    {
      selectedBinary := copied;
    }

    /** The clear button. */
    method ClearBinary()
      modifies this
      ensures selectedBinary == None && currentProcess == old(currentProcess)
    {
      selectedBinary := None;
    }

    /** `executeCommand`: clear the view, start the child, arm the guard,
        relay its output. */
    method ExecuteCommand(command: string, view: ResultView, spawn: Spawn, now: Timestamp.DateTime)
      returns (log: Option<LogRecord>, fault: Option<Fault>)
      modifies this, view
      ensures selectedBinary == old(selectedBinary)
      ensures Run(currentProcess, view.chunks, log, fault) == Execution(old(currentProcess), command, spawn, now)
    {
      view.SetText("");
      if command == [] {
        log, fault := None, Some(IllegalArgumentException);
        return;
      }
      fault := None;
      match spawn {
        case SpawnFailed(message) =>
          view.SetText(ERROR_PREFIX + message);
          log := None;
        case Spawned(stdout, stderr) =>
          currentProcess := Alive;
          var record := RelayStreams(command, stdout, stderr, view, Timestamp.Format(now));
          log := Some(record);
      }
    }

    /** The execute button's listener, with what `exists()` answers for the
        selected file at the moment it is pressed. */
    method OnExecute(text: string, fileExists: bool, view: ResultView, spawn: Spawn, now: Timestamp.DateTime)
      returns (command: Option<string>, log: Option<LogRecord>, fault: Option<Fault>)
      modifies this, view
      ensures command == Resolve(text, AsSeen(old(selectedBinary), fileExists))
      ensures selectedBinary == old(selectedBinary)
      ensures command.None? ==> currentProcess == old(currentProcess) && view.chunks == old(view.chunks) && log.None? && fault.None?
      ensures command.Some? ==> Run(currentProcess, view.chunks, log, fault) == Execution(old(currentProcess), command.value, spawn, now)
    {
      command := Resolve(text, AsSeen(selectedBinary, fileExists));
      if command.None? {
        log, fault := None, None;
        return;
      }
      log, fault := ExecuteCommand(command.value, view, spawn, now);
    }

    /** The stop button. */
    method OnStop(view: ResultView) returns (destroyed: bool)
      modifies this, view
      ensures Termination(currentProcess, destroyed) == DestroyIfAlive(old(currentProcess))
      ensures selectedBinary == old(selectedBinary)
      ensures view.chunks == old(view.chunks) + (if destroyed then [STOP_MESSAGE] else [])
    {
      if currentProcess != NoProcess && currentProcess == Alive {
        currentProcess := Dead;
        destroyed := true;
        view.Append(STOP_MESSAGE);
      } else {
        destroyed := false;
      }
    }

    /** The guard, when its 30 seconds are up. */
    method OnTimeout(view: ResultView) returns (destroyed: bool)
      modifies this, view
      ensures Termination(currentProcess, destroyed) == DestroyIfAlive(old(currentProcess))
      ensures selectedBinary == old(selectedBinary)
      ensures view.chunks == old(view.chunks) + (if destroyed then [TIMEOUT_MESSAGE] else [])
    {
      if currentProcess == Alive {
        currentProcess := Dead;
        destroyed := true;
        view.Append(TIMEOUT_MESSAGE);
      } else {
        destroyed := false;
      }
    }

    /** The child ending on its own: `isAlive()` turns false, and the field
        keeps its reference. */
    method OnExit()
      modifies this
      ensures currentProcess == Exit(old(currentProcess)) && selectedBinary == old(selectedBinary)
    {
      if currentProcess == Alive {
        currentProcess := Dead;
      }
    }
  }
}
