# exec_app — a Dafny model of the command runner's activity

`exec_app` is an Android app that runs a shell command as a child process and
shows what the command prints. The user types a command and can pick a binary,
which is copied into the app's storage and put in front of the command. The
child's standard output and then its standard error are relayed line by line
to a result view. The same text is saved as a log file whose name comes from
the command and the moment it was saved. A stop button and a 30-second guard
destroy the child while it is still alive.

The repository holds two near-identical revisions of the activity,
`com.coara.execapp` and `com.example.test`. The model covers both:

- `common.dfy` (`Common`): `Option`, `Result` with the two unchecked faults
  the activity runs into (`NullPointerException`, `IllegalArgumentException`),
  and the selected binary as the execute button sees it (`Binary`: its
  absolute path and whether it exists at that moment).
- `strings.dfy` (`Strings`): the Java string operations the activity uses:
  - `trim()` removes characters up to U+0020 at both ends;
  - `indexOf` and `lastIndexOf` on one character.
- `lifecycle.dfy` (`Lifecycle`):
  - the `currentProcess` field as an abstract state: null, alive or ended;
  - what `Runtime.exec` yields for a non-empty command: the lines of both
    streams, or the `IOException` message (for the empty command it throws
    `IllegalArgumentException`, which the revisions model in `Execution`);
  - the "destroy only if alive" decision shared by the stop button and the
    guard;
  - `Run`, what one `executeCommand` leaves behind in either revision.
- `transcript.dfy` (`Transcript`):
  - the text of one relayed line: plain for standard output, `"ERROR: "` in
    front for standard error, then `"\n"`;
  - the log of a run, and how it is read back line by line (`SplitLines`, for
    text without `'\r'`);
  - the objects the relay works on: a `BufferedReader` (`LineReader`), a
    `StringBuilder` (`OutputBuilder`) and the result `TextView`
    (`ResultView`, which records the pieces of text in arrival order).
- `timestamp.dfy` (`Timestamp`): `SimpleDateFormat("yyyyMMdd_HHmmss")` over
  calendar fields, with zero padding, and parsing the stamp back.
- `log_naming.dfy` (`LogNaming`): `replaceAll("[^a-zA-Z0-9]", "_")` and the log
  file name `sanitized + "_" + timeStamp + ".txt"`.
- `display_name.dfy` (`DisplayName`): the fallback of `getFileName`, the part
  of the URI path after its last `/`.
- `exec_app.dfy` (`ExecApp`): the `com.coara.execapp` activity:
  - command resolution, `getFileName`, and the run as a function (`Execution`);
  - the relay with its two read-until-null loops (`RelayStreams`);
  - a `MainActivity` class whose `currentProcess` and `selectedBinary` fields
    the button handlers, the relay and the guard update.
- `test_app.dfy` (`TestApp`): the `com.example.test` activity, organised the
  same way:
  - resolution only prepends the path when the command does not already
    start with it;
  - `processStream` is a method that drains one reader into the shared
    builder and the view.
- `revisions.dfy` (`Revisions`): where the two revisions agree and where they
  differ.
- `scenarios.dfy` (`Scenarios`): sessions with each activity, driven through
  its handlers: a run that is stopped, a start failure, the empty command,
  and a child that exits on its own.

Source paths below are relative to the repository root.

Modelling choices:

- Process creation, its streams and the clock are inputs. `Spawn` gives the
  lines each stream will deliver, or the start failure. The moment of saving
  is a `Timestamp.DateTime`.
- The relay runs on an executor thread. Here it runs to completion as a
  sequential loop. Each `runOnUiThread` append lands in the view in the
  order it was posted.
- The stop button and the guard are separate handlers on the same
  `currentProcess` field. The guard reads the field when it fires, not the
  process it was armed for; both revisions do this.
- The activity keeps the selected binary's path. Whether its file exists is
  asked when the execute button is pressed, so `OnExecute` takes that answer
  as an input.
- A binary that is selected but whose file no longer exists is passed over.
  Blank text then resolves to the empty command instead of being refused.
  `executeCommand` clears the view, and `Runtime.exec("")` then throws
  `IllegalArgumentException`. That is not an `IOException`, so neither
  revision catches it. No process is started and no log is saved.
  `EmptyCommandExactly`, `EmptyCommandFails` and the `fault` of `Execution`
  state this.
- A fault (the `fault` of a run, or the one `TestApp.MainActivity.OnBinaryCopied`
  returns) is an exception escaping a main-thread callback. Neither revision
  installs a handler for it, so the app's process ends there. No handler runs
  after a fault, and the state the activity object is left in has no
  meaning. The scenarios stop at a fault.
- In `com.coara.execapp` the `StringBuilder` is local to the relay and never
  escapes, so it is a local string variable that the loops append to. In
  `com.example.test` it is passed to `processStream`, so it is an
  `OutputBuilder` object that the method modifies.

## Model

| member | source | states |
|---|---|---|
| Strings.Trim | app/src/main/java/com/coara/execapp/MainActivity.java:59 | The result is the text with its leading and trailing characters up to U+0020 removed: a slice with only blanks cut off each end and no blank left at either end. It is empty exactly when the text is all blanks. |
| Strings.TrimOfUnique | app/src/main/java/com/coara/execapp/MainActivity.java:59 | Any two ways of cutting blanks off the ends that leave none at either end give the same string, so `Trim` is the unique such cut. |
| Strings.TrimmedIsFixed | app/src/main/java/com/example/test/MainActivity.java:67 | Text with no blank at either end is its own trim. |
| Strings.TrimIdempotent | app/src/main/java/com/example/test/MainActivity.java:67 | Trimming twice is trimming once. |
| Strings.IndexOf | app/src/main/java/com/coara/execapp/MainActivity.java:208 | The helper of `Transcript.SplitLines`, which finds where `readLine` ends a line: -1 when the character does not occur, otherwise the first position holding it. |
| Strings.LastIndexOf | app/src/main/java/com/coara/execapp/MainActivity.java:181 | `lastIndexOf`: -1 when the character does not occur, otherwise the last position holding it. |
| ExecApp.Resolve | app/src/main/java/com/coara/execapp/MainActivity.java:58-67 | Nothing runs exactly when the text is blank and no binary is selected. With a selected binary whose file exists, the command is its path, a space and the trimmed text. Otherwise it is the trimmed text. |
| ExecApp.MissingBinaryIgnored | app/src/main/java/com/coara/execapp/MainActivity.java:65-67 | A selected binary whose file is gone yields the trimmed text. For text that is not blank, the result is the same as with no binary selected. |
| ExecApp.EmptyCommandExactly | app/src/main/java/com/coara/execapp/MainActivity.java:58-67 | The command is empty exactly when the text is blank, a binary is selected and its file is gone. |
| ExecApp.EmptyCommandFails | app/src/main/java/com/coara/execapp/MainActivity.java:189-192 | Blank text with a missing binary resolves to the empty command. Its run clears the view, then ends with `IllegalArgumentException`: no log, and the process field unchanged. |
| ExecApp.ResolvePrependsAgain | app/src/main/java/com/coara/execapp/MainActivity.java:66 | For text that is not blank and a binary with an absolute path, typing the resolved command back in gives the path, a space, the path again, a space and the trimmed text, which differs from the first command. |
| TestApp.Prefixed | app/src/main/java/com/example/test/MainActivity.java:75-77 | The result always starts with the path. It equals the command exactly when the command already starts with the path; otherwise it is the path, a space and the command. |
| TestApp.PrefixedIdempotent | app/src/main/java/com/example/test/MainActivity.java:75-77 | Prefixing twice is prefixing once. |
| TestApp.PrefixedIsTextual | app/src/main/java/com/example/test/MainActivity.java:75 | The `startsWith` comparison is character-wise: `/data/tool2 -v` counts as already starting with `/data/tool` and is left unchanged. |
| TestApp.Resolve | app/src/main/java/com/example/test/MainActivity.java:66-80 | This revision's resolution:<br>- nothing runs exactly when the text is blank and no binary is selected;<br>- with a selected binary whose file exists, the path goes in front of the trimmed text only when that text does not already start with it;<br>- otherwise the command is the trimmed text. |
| TestApp.ResolveTwice | app/src/main/java/com/example/test/MainActivity.java:67-77 | Resolving the typed command again gives the same command, for text that is not blank and a binary with an absolute path. |
| TestApp.EmptyCommandExactly | app/src/main/java/com/example/test/MainActivity.java:67-80 | The command is empty exactly when the text is blank, a binary is selected, and its file is gone or its path is empty. |
| TestApp.ResolveTwiceBlank | app/src/main/java/com/example/test/MainActivity.java:67-77 | For blank text with binary `/b`, the command is `/b ` (trailing space). Resolving that again gives `/b`, so resolution is not idempotent there. |
| Revisions.ResolveRevisionsAgree | app/src/main/java/com/example/test/MainActivity.java:74-77 | The two revisions resolve alike exactly unless the binary is usable and the trimmed text already starts with its path. |
| DisplayName.Basename | app/src/main/java/com/coara/execapp/MainActivity.java:180-184 | The name holds no `/` and is a suffix of the path. When it is shorter than the path, the character just before it is `/`. |
| DisplayName.BasenameWithoutSlash | app/src/main/java/com/coara/execapp/MainActivity.java:182 | A path without `/` is its own name. |
| DisplayName.BasenameLongest | app/src/main/java/com/coara/execapp/MainActivity.java:181-183 | No suffix of the path without `/` is longer than the name, so the cut is at the last `/`. |
| DisplayName.BasenameIdempotent | app/src/main/java/com/example/test/MainActivity.java:173-177 | Taking the name of a name changes nothing. |
| ExecApp.GetFileName | app/src/main/java/com/coara/execapp/MainActivity.java:170-187 | The provider's display name is used for a `content` URI that has one. Otherwise the result is the path's basename, or a `NullPointerException` when the URI has no path. A name with `/` in it can only come from the provider. |
| TestApp.GetFileName | app/src/main/java/com/example/test/MainActivity.java:163-180 | As in the other revision, except that a URI without a scheme fails with `NullPointerException`. |
| Revisions.GetFileNameRevisionsAgree | app/src/main/java/com/example/test/MainActivity.java:165 | The two revisions give the same name exactly when the URI has a scheme or has no path. |
| Lifecycle.DestroyIfAlive | app/src/main/java/com/coara/execapp/MainActivity.java:74-76 | The process is destroyed exactly when it is alive, and a destroyed process has ended. It is never alive afterwards. Anything else is left as it was. |
| Lifecycle.Exit | app/src/main/java/com/coara/execapp/MainActivity.java:196 | A live child that ends on its own becomes an ended process, which the field still holds, so `isAlive()` can be asked of it. A process that was not alive is unchanged. |
| Lifecycle.DestroyIdempotent | app/src/main/java/com/coara/execapp/MainActivity.java:73-80 | A second stop, or the guard after a stop, finds nothing to destroy and changes nothing. |
| Lifecycle.LateDestroyIsNoOp | app/src/main/java/com/coara/execapp/MainActivity.java:195-200 | A stop or time-out after the child exited is a no-op. |
| Transcript.LineReader.constructor | app/src/main/java/com/coara/execapp/MainActivity.java:203 | A fresh reader is positioned before the first line of its stream. |
| Transcript.LineReader.ReadLine | app/src/main/java/com/coara/execapp/MainActivity.java:209 | `readLine` returns the next line and advances by one, or returns `null` at the end and stays there. |
| Transcript.OutputBuilder.constructor | app/src/main/java/com/example/test/MainActivity.java:199 | A fresh builder holds no text. |
| Transcript.OutputBuilder.Append | app/src/main/java/com/example/test/MainActivity.java:218 | `append` adds the text at the end and keeps what was there. |
| Transcript.ResultView.SetText | app/src/main/java/com/coara/execapp/MainActivity.java:190 | `setText` leaves the view showing the given text alone. |
| Transcript.ResultView.Append | app/src/main/java/com/coara/execapp/MainActivity.java:212 | `append` adds one piece after everything already shown. |
| Transcript.Displayed | app/src/main/java/com/example/test/MainActivity.java:217 | The text shown for one line: the line for standard output, `ERROR: ` and the line for standard error. `DisplayedShape` states its shape. |
| Transcript.DisplayedShape | app/src/main/java/com/example/test/MainActivity.java:217 | A displayed line ends with the line read. It has `ERROR: ` in front exactly for standard error, and is the line itself for standard output. |
| Transcript.Log | app/src/main/java/com/coara/execapp/MainActivity.java:206-219 | The text the `StringBuilder` holds after both loops: every standard-output entry, then every standard-error entry. `LogParts` and `LogReadBack` state its properties. |
| Transcript.SplitLines | app/src/main/java/com/coara/execapp/MainActivity.java:208 | The lines `readLine` returns from a text without `'\r'`: the text is cut after every newline, and a last line without one still counts. `LogReadBack` reads the log back with it. |
| Transcript.RelayLine | app/src/main/java/com/coara/execapp/MainActivity.java:209-219 | One relayed line: when the log text and the view hold the entries of the lines read so far, appending the line's displayed text and a newline to both makes them hold one more entry. |
| Transcript.LogParts | app/src/main/java/com/coara/execapp/MainActivity.java:209-219 | The log is the standard-output entries followed by the standard-error entries. The standard-output part is a prefix of it. |
| Transcript.LogReadBack | app/src/main/java/com/coara/execapp/MainActivity.java:206-221 | Reading the log back line by line gives every standard-output line in order, then every standard-error line in order with `ERROR: ` in front. No standard-error line comes before a standard-output line. |
| ExecApp.RelayStreams | app/src/main/java/com/coara/execapp/MainActivity.java:202-221 | After both loops, the view has gained exactly the entries of the standard-output lines, then those of the standard-error lines. The saved record is named from the command and the stamp, and holds the log of the run. |
| TestApp.ProcessStream | app/src/main/java/com/example/test/MainActivity.java:214-221 | The reader is drained. The builder and the view each keep what they held and gain exactly the entries of the lines that were left, in order. |
| TestApp.RelayStreams | app/src/main/java/com/example/test/MainActivity.java:196-207 | Two `processStream` calls, standard output then standard error, into one builder. They leave the same view and the same saved record as the other revision's loops. |
| ExecApp.Execution | app/src/main/java/com/coara/execapp/MainActivity.java:189-231 | The run of a command, as a value. It fails exactly when the command is empty. A log is saved exactly when a non-empty command starts, and it is named from the command and the moment. The process field becomes alive exactly then and is otherwise unchanged. The view starts with the cleared text, or with the error text when the start fails. |
| ExecApp.ExecutionShowsLog | app/src/main/java/com/coara/execapp/MainActivity.java:206-221 | After a started run of a non-empty command there is no fault, and the text in the view is exactly the text of the saved log. |
| ExecApp.ExecutionSpawnFailed | app/src/main/java/com/coara/execapp/MainActivity.java:228-229 | A command that cannot be started leaves no log and the process field unchanged. For a non-empty command there is no fault and the view shows `ERROR: ` and the message. |
| TestApp.Execution | app/src/main/java/com/example/test/MainActivity.java:182-212 | The run of a command in this revision. It fails exactly when the command is empty. A log is saved exactly when a non-empty command starts, and it is named from the command and the moment. The process field becomes alive exactly then. The view starts with the cleared text. |
| TestApp.ExecutionShowsLog | app/src/main/java/com/example/test/MainActivity.java:196-203 | After a started run of a non-empty command there is no fault, and the text in the view is exactly the text of the saved log. |
| TestApp.ExecutionSpawnFailed | app/src/main/java/com/example/test/MainActivity.java:209-210 | A command that cannot be started leaves no log and the process field unchanged. For a non-empty command there is no fault and the view shows `ERROR: `, the message and a newline. |
| Revisions.ExecutionRevisionsAgree | app/src/main/java/com/example/test/MainActivity.java:182-212 | Both revisions leave the same process field, log and fault. A started run, or the empty command, leaves the same view in both. When a non-empty command fails to start, `com.example.test` shows the error text of `com.coara.execapp` followed by a newline. |
| LogNaming.Sanitize | app/src/main/java/com/coara/execapp/MainActivity.java:240 | The result has the command's length. ASCII letters and digits stay at their positions; every other character becomes `_`. |
| LogNaming.SanitizedChars | app/src/main/java/com/coara/execapp/MainActivity.java:240 | Every character of a sanitised command is a letter, a digit or `_`. |
| LogNaming.SanitizeFixedPoint | app/src/main/java/com/coara/execapp/MainActivity.java:240 | A command is its own sanitised form exactly when it holds only letters, digits and `_`. |
| LogNaming.SanitizeIdempotent | app/src/main/java/com/example/test/MainActivity.java:230 | Sanitising twice is sanitising once. |
| LogNaming.SanitizeCollides | app/src/main/java/com/coara/execapp/MainActivity.java:240 | Different commands can share a name: `ls -l` and `ls_-l` both become `ls__l`. |
| LogNaming.LogFileName | app/src/main/java/com/coara/execapp/MainActivity.java:240 | The name has five more characters than the command and stamp together. It is the sanitised command, `_`, the stamp, then `.txt`, each at its position. |
| LogNaming.LogFileNameInjective | app/src/main/java/com/example/test/MainActivity.java:230 | For one command, two names are equal exactly when the stamps are. |
| LogNaming.LogFileNameHasNoSlash | app/src/main/java/com/coara/execapp/MainActivity.java:240-241 | With a stamp free of `/`, the name holds no `/`, so the log file stays in the log directory. |
| LogNaming.LogFileNameRecordsTime | app/src/main/java/com/coara/execapp/MainActivity.java:239-240 | The name of a log saved at a valid moment is 20 characters longer than the command, and the moment can be read back from it. |
| LogNaming.DistinctMomentsDistinctFiles | app/src/main/java/com/coara/execapp/MainActivity.java:239-240 | Logs of one command saved at different moments get different file names. |
| Timestamp.Format | app/src/main/java/com/coara/execapp/MainActivity.java:239 | `yyyyMMdd_HHmmss` over the calendar fields. `FormatShape`, `ParseFormat` and `FormatInjective` state its properties. |
| Timestamp.ZeroPad | app/src/main/java/com/coara/execapp/MainActivity.java:239 | A field is printed in decimal digits whose value is the field, zero-padded on the left to the field's width. |
| Timestamp.FormatShape | app/src/main/java/com/coara/execapp/MainActivity.java:239 | A valid moment prints as 8 digits, `_`, then 6 digits. |
| Timestamp.ParseFormat | app/src/main/java/com/coara/execapp/MainActivity.java:239 | Parsing a printed valid moment gives the moment back. |
| Timestamp.FormatInjective | app/src/main/java/com/example/test/MainActivity.java:229 | Different valid moments print differently. |
| ExecApp.MainActivity.constructor | app/src/main/java/com/coara/execapp/MainActivity.java:24-25 | Both fields start out null. |
| ExecApp.MainActivity.OnBinaryCopied | app/src/main/java/com/coara/execapp/MainActivity.java:131-134 | The selected binary becomes the copy's path, or null when copying failed. The process field is untouched. |
| ExecApp.MainActivity.ClearBinary | app/src/main/java/com/coara/execapp/MainActivity.java:52-55 | The clear button deselects the binary and leaves the process field alone. |
| ExecApp.MainActivity.ExecuteCommand | app/src/main/java/com/coara/execapp/MainActivity.java:189-231 | The process field, the view, the saved log and the fault are exactly those of `Execution`, so `ExecutionShowsLog`, `ExecutionSpawnFailed` and `EmptyCommandFails` describe them. The selected binary is untouched. |
| ExecApp.MainActivity.OnExecute | app/src/main/java/com/coara/execapp/MainActivity.java:58-70 | The command run is `Resolve` of the text and the selected binary, with its file's existence as asked at the press. When it is refused, nothing changes. Otherwise the run is that of `ExecuteCommand`. |
| ExecApp.MainActivity.OnStop | app/src/main/java/com/coara/execapp/MainActivity.java:73-80 | Destroys exactly when the process is alive, and only then appends the stop notice to the view. |
| ExecApp.MainActivity.OnTimeout | app/src/main/java/com/coara/execapp/MainActivity.java:195-200 | The guard destroys exactly when the process is alive, and only then appends the time-out notice. |
| ExecApp.MainActivity.OnExit | app/src/main/java/com/coara/execapp/MainActivity.java:196 | A child ending on its own leaves the field holding a process that is not alive, which `isAlive()` then reports. The selected binary is untouched. |
| TestApp.MainActivity.constructor | app/src/main/java/com/example/test/MainActivity.java:27-28 | Both fields start out null. |
| TestApp.MainActivity.OnBinaryCopied | app/src/main/java/com/example/test/MainActivity.java:127-135 | The selected binary becomes the copy's path, or null. A null copy makes the confirmation, which reads its path, fail with `NullPointerException`. |
| TestApp.MainActivity.ClearBinary | app/src/main/java/com/example/test/MainActivity.java:60-63 | The clear button deselects the binary and leaves the process field alone. |
| TestApp.MainActivity.ExecuteCommand | app/src/main/java/com/example/test/MainActivity.java:182-212 | The process field, the view, the saved log and the fault are exactly those of this revision's `Execution`. |
| TestApp.MainActivity.OnExecute | app/src/main/java/com/example/test/MainActivity.java:66-83 | The command run is this revision's `Resolve`, with the file's existence as asked at the press. When it is refused, nothing changes. Otherwise the run is that of `ExecuteCommand`. |
| TestApp.MainActivity.OnStop | app/src/main/java/com/example/test/MainActivity.java:86-91 | Destroys exactly when the process is alive, and only then appends the stop notice. |
| TestApp.MainActivity.OnTimeout | app/src/main/java/com/example/test/MainActivity.java:189-194 | The guard destroys exactly when the process is alive, and only then appends this revision's time-out notice. |
| TestApp.MainActivity.OnExit | app/src/main/java/com/example/test/MainActivity.java:190 | A child ending on its own leaves the field holding a process that is not alive. The selected binary is untouched. |

## Left out

- What happens once a fault is raised: the app's process ends, and the model does not forbid further handler calls on the activity object. The handlers carry no "not crashed" precondition.
- A selected path that is empty or relative: `getAbsolutePath()` never returns one, but `OnBinaryCopied` accepts any string. For such a path `Resolve` can give a command, such as `" "`, that `Runtime.exec` would reject with an exception the model does not have.
- Starting the child process, and what `destroy()` does to it: the process is an abstract state, and its output is an input.
- Threads: the relay executor, the scheduled guard, `runOnUiThread` and their races. The relay runs to completion before anything else. A stop or time-out arriving in the middle of a relay is not modelled.
- The real 30-second timer: only the guard's decision when it fires is modelled.
- Toasts, the soft-keyboard button, permission requests and their results: they only display or ask.
- The file picker and the content-provider query: the display name is an optional input to `GetFileName`.
- Copying the binary byte by byte, `setExecutable`, creating directories and writing the log file: the model records the file name and the text that would be written.
- `SimpleDateFormat` locale and the system clock: the moment is an input, and digits are ASCII.
- `IOException` while a stream is being read: the readers deliver their lines and then end.
- Transcript.SplitLines: cuts lines only at `'\n'`, while `readLine` also ends a line at `'\r'` and at `"\r\n"`. Lines that `readLine` returned hold neither, so on a log of such lines the two agree. `LogReadBack` does not state this for lines that hold `'\r'`, where they would differ.
- The cursor's column lookup (`getColumnIndex`) and a null cursor: they come down to whether a display name is present.
- Java strings are UTF-16, and characters here are code points: `trim`, `replaceAll` and `lastIndexOf` are modelled per character.
- TestApp.ResolveTwice: holds only for text that is not blank and a path starting with `/`. For blank text the first command ends in a blank that the second resolution trims away (`ResolveTwiceBlank`).
- ExecApp.RelayStreams: the relay's `StringBuilder` is a local string that the loops extend, because it never leaves the relay.
