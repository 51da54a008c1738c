/** Sessions with each revision of the activity, step by step. */
module Scenarios {
  import opened Common
  import opened Lifecycle
  import opened Transcript
  import Timestamp
  import ExecApp
  import TestApp

  /** The entries of a run printing "hi" on standard output and "oops" on
      standard error, and its log. */
  lemma HiOops()
    ensures Entries(["hi"], false) + Entries(["oops"], true) == ["hi\n", "ERROR: oops\n"]
    ensures Log(["hi"], ["oops"]) == "hi\nERROR: oops\n"
  {
    assert Entries(["hi"], false)[0] == Entry("hi", false) == "hi\n";
    assert Entries(["oops"], true)[0] == Entry("oops", true) == "ERROR: oops\n";
    var chunks := ["hi\n", "ERROR: oops\n"];
    assert Concat(chunks) == "hi\n" + Concat(chunks[1..]);
    assert Concat(chunks[1..]) == "ERROR: oops\n" + Concat([]);
  }

  /** A trimmed command runs as typed; its two streams reach the view in
      order; stop destroys it and the guard then finds nothing to do. */
  method CoaraSession(text: string, now: Timestamp.DateTime)
    requires text != [] && Strings.IsTrimmed(text)
  {
    var activity := new ExecApp.MainActivity();
    var view := new ResultView();
    Strings.TrimmedIsFixed(text);
    HiOops();
    var command, log, fault := activity.OnExecute(text, false, view, Spawned(["hi"], ["oops"]), now);
    assert command == Some(text) && fault.None?;
    assert view.chunks == ["", "hi\n", "ERROR: oops\n"];
    assert log.Some? && log.value.content == "hi\nERROR: oops\n";
    var stopped := activity.OnStop(view);
    assert stopped && activity.currentProcess == Dead;
    var timedOut := activity.OnTimeout(view);
    assert !timedOut;
    assert view.chunks == ["", "hi\n", "ERROR: oops\n", ExecApp.STOP_MESSAGE];
  }

  /** With a binary selected, a command that already names it is run as typed,
      and a command that cannot be started leaves its error on the view. */
  method TestSession(now: Timestamp.DateTime) {
    var activity := new TestApp.MainActivity();
    var view := new ResultView();
    var copyFault := activity.OnBinaryCopied(Some("/b"));
    assert copyFault.None?;
    Strings.TrimmedIsFixed("/b -v");
    assert "/b" <= "/b -v";
    var command, log, fault := activity.OnExecute("/b -v", true, view, SpawnFailed("denied"), now);
    assert fault.None?;
    assert command == Some("/b -v");
    assert log.None? && activity.currentProcess == NoProcess;
    assert ERROR_PREFIX + "denied" + "\n" == "ERROR: denied\n";
    assert view.chunks == ["", "ERROR: denied\n"];
    var stopped := activity.OnStop(view);
    assert !stopped && view.chunks == ["", "ERROR: denied\n"];
  }

  /** Blank text while the selected file has gone missing: the view is
      cleared, then `Runtime.exec("")` throws out of the click listener and
      the app's process ends, so no later handler runs. Nothing was started
      and no log was saved. */
  method MissingBinarySession(now: Timestamp.DateTime) {
    var activity := new ExecApp.MainActivity();
    var view := new ResultView();
    activity.OnBinaryCopied(Some("/b"));
    assert Strings.AllBlank("  ");
    var command, log, fault := activity.OnExecute("  ", false, view, Spawned(["hi"], []), now);
    assert command == Some([]);
    assert fault == Some(IllegalArgumentException) && log.None?;
    assert view.chunks == [""] && activity.currentProcess == NoProcess;
  }

  /** A command that ends on its own before anyone presses stop: the stop
      button and the guard then leave the view alone. */
  method ExitedSession(text: string, now: Timestamp.DateTime)
    requires text != [] && Strings.IsTrimmed(text)
  {
    var activity := new TestApp.MainActivity();
    var view := new ResultView();
    Strings.TrimmedIsFixed(text);
    var command, log, fault := activity.OnExecute(text, false, view, Spawned([], []), now);
    assert command == Some(text) && fault.None?;
    assert view.chunks == [""] && activity.currentProcess == Alive;
    activity.OnExit();
    var stopped := activity.OnStop(view);
    var timedOut := activity.OnTimeout(view);
    assert !stopped && !timedOut && view.chunks == [""];
  }
}
