/** The child process as the activity's `currentProcess` field tracks it, and
    the one decision the stop button and the time-out guard both take on it. */
module Lifecycle {
  import opened Common
  import opened LogNaming

  /** `currentProcess`: null, a child still alive, or one that has ended. */
  datatype Proc = NoProcess | Alive | Dead

  /** What `Runtime.exec(command)` yields for a command that is not empty: a
      child together with the lines its standard output and standard error
      will deliver, or the message of the `IOException` thrown when it cannot
      be started. An empty command throws `IllegalArgumentException` before
      any of this. */
  datatype Spawn = Spawned(stdout: seq<string>, stderr: seq<string>) | SpawnFailed(message: string)

  /** What a run of `executeCommand` leaves behind: the process field, the
      view, the log saved, and the unchecked exception that ended the click
      listener, if any. */
  datatype Run = Run(process: Proc, view: seq<string>, log: Option<LogRecord>, fault: Option<Fault>)

  /** The process after a handler ran, and whether it called `destroy()`. */
  datatype Termination = Termination(next: Proc, destroyed: bool)

  /** `if (currentProcess != null && currentProcess.isAlive()) currentProcess.destroy();`
      Only a live process is destroyed; anything else is left as it is. */
  function DestroyIfAlive(p: Proc): (t: Termination)
    ensures t.destroyed <==> p == Alive
    ensures t.destroyed ==> t.next == Dead
    ensures t.next != Alive
    ensures !t.destroyed ==> t.next == p
  {
    if p == Alive then Termination(Dead, true) else Termination(p, false)
  }

  /** The child ending on its own. */
  function Exit(p: Proc): (q: Proc)
    ensures q != Alive
    ensures p == Alive ==> q == Dead
    ensures p != Alive ==> q == p
  {
    if p == Alive then Dead else p
  }

  /** Pressing stop twice, or stop and then the guard: the second finds nothing to destroy. */
  lemma DestroyIdempotent(p: Proc)
    ensures DestroyIfAlive(DestroyIfAlive(p).next) == Termination(DestroyIfAlive(p).next, false)
  {
  }

  /** A stop or a time-out that comes after the child exited is a harmless no-op. */
  lemma LateDestroyIsNoOp(p: Proc)
    ensures DestroyIfAlive(Exit(p)) == Termination(Exit(p), false)
  {
  }
}
