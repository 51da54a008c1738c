/** How the two revisions of the activity differ. */
module Revisions {
  import opened Common
  import opened Strings
  import opened Lifecycle
  import opened Transcript
  import opened DisplayName
  import Timestamp
  import ExecApp
  import TestApp

  /** The revisions run the same command except when the typed command already
      starts with the selected binary's path: `com.coara.execapp` prepends it
      anyway, `com.example.test` leaves the command alone. */
  lemma ResolveRevisionsAgree(text: string, selected: Option<Binary>)
    ensures ExecApp.Resolve(text, selected) == TestApp.Resolve(text, selected)
        <==> !(Usable(selected) && selected.value.absolutePath <= Trim(text))
  {
    if Usable(selected) && selected.value.absolutePath <= Trim(text) {
      var p := selected.value.absolutePath;
      assert |ExecApp.Resolve(text, selected).value| == |p| + 1 + |Trim(text)|;
    }
  }

  /** The display names agree except for a URI without a scheme but with a
      path: `com.coara.execapp` falls back to the path, `com.example.test` fails. */
  lemma GetFileNameRevisionsAgree(uri: Uri, displayName: Option<string>)
    ensures ExecApp.GetFileName(uri, displayName) == TestApp.GetFileName(uri, displayName)
        <==> uri.scheme.Some? || uri.path.None?
  {
  }

  /** Both revisions run a started command alike, and fail alike on the empty
      command: same process, view, log and fault. When a non-empty command
      cannot be started, neither saves a log nor changes the process field,
      and the view of `com.example.test` shows the error text of
      `com.coara.execapp` followed by a newline. */
  lemma ExecutionRevisionsAgree(process: Proc, command: string, spawn: Spawn, now: Timestamp.DateTime)
    ensures var coara, test := ExecApp.Execution(process, command, spawn, now), TestApp.Execution(process, command, spawn, now);
      coara.process == test.process && coara.log == test.log && coara.fault == test.fault
      && (command == [] || spawn.Spawned? ==> coara.view == test.view)
      && (command != [] && spawn.SpawnFailed? ==> Concat(coara.view) + "\n" == Concat(test.view))
  {
    if command != [] && spawn.SpawnFailed? {
      var m := spawn.message;
      assert Concat([ERROR_PREFIX + m]) == ERROR_PREFIX + m;
      assert Concat(["", ERROR_PREFIX + m + "\n"]) == "" + Concat([ERROR_PREFIX + m + "\n"]);
      assert Concat([ERROR_PREFIX + m + "\n"]) == ERROR_PREFIX + m + "\n";
    }
  }
}
