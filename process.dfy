/**
 * Running a Command in the build tool (cb.c): run_cmd_async forks and
 * execs, pid_wait loops on waitpid and turns the child's status into
 * "return" or a fatal PANIC, and run_cmd echoes the command and does both.
 * The operating system is abstracted into a World that says, per
 * invocation, whether fork fails or which statuses waitpid reports.
 */
module Processes {
  import opened Outcomes
  import opened CMemory
  import opened Commands

  /** WEXITSTATUS keeps the low eight bits of the exit code. */
  type ExitCode = c: nat | c < 256

  /** What one waitpid call reports. */
  datatype WaitStatus =
    | WaitFailed               // waitpid returned < 0
    | Exited(code: ExitCode)   // WIFEXITED
    | Signaled(signal: nat)    // WIFSIGNALED, with WTERMSIG
    | Other                    // neither (a stop or continue report)

  /** The file execvp searches for and the argv it passes. */
  datatype Invocation = Invocation(file: CStr, argv: seq<CStr>)

  /**
   * The operating system's side of one spawn: fork fails, or a child with
   * this pid exists and successive waitpid calls report `statuses`. A child
   * whose execvp fails PANICs, which the parent sees as Exited(1).
   */
  datatype Child = ForkFailed | Spawned(pid: int, statuses: seq<WaitStatus>)

  type World = Invocation -> Child

  /** The fatal errors of the runner; each is a PANIC, i.e. exit(1) of the whole tool. */
  datatype Fatal =
    | CannotFork                            // "cannot make a process"
    | CannotWait(pid: int)                  // "could not wait pid"
    | ExitedNonZero(pid: int, code: nat)    // "a child process %d exited with exit code %d"
    | KilledBySignal(signal: nat)           // "command process was terminated by %s"

  /**
   * How a wait ends: the child exited with code 0, the tool PANICs, or the
   * statuses the World gives ran out while pid_wait would call waitpid again.
   */
  datatype Waited = Reaped | Failed(fatal: Fatal) | StillWaiting

  /** pid_wait's reaction to one status; None means "wait again". */
  function Classify(pid: int, st: WaitStatus): (r: Option<Waited>)
    ensures r.None? <==> st == Other
    ensures r == Some(Reaped) <==> st == Exited(0)
    ensures r.Some? ==> r.value != StillWaiting && r.value != Failed(CannotFork)
    ensures r.Some? && r.value.Failed? && r.value.fatal.ExitedNonZero? ==>
              st.Exited? && r.value.fatal.pid == pid && r.value.fatal.code == st.code != 0
    ensures st.Exited? && st.code != 0 ==> r == Some(Failed(ExitedNonZero(pid, st.code)))
    ensures st.Signaled? ==> r == Some(Failed(KilledBySignal(st.signal)))
    ensures st == WaitFailed ==> r == Some(Failed(CannotWait(pid)))
  {
    match st
    case WaitFailed => Some(Failed(CannotWait(pid)))
    case Exited(code) => if code == 0 then Some(Reaped) else Some(Failed(ExitedNonZero(pid, code)))
    case Signaled(signal) => Some(Failed(KilledBySignal(signal)))
    case Other => None
  }

  /**
   * The outcome of pid_wait: decided by the first status that is not Other.
   * It returns normally exactly when that status is an exit with code 0.
   */
  function WaitOutcome(pid: int, statuses: seq<WaitStatus>): (r: Waited)
    ensures r == Reaped <==> exists k :: 0 <= k < |statuses| && statuses[k] == Exited(0)
                                        && forall j :: 0 <= j < k ==> statuses[j] == Other
    ensures r == StillWaiting <==> forall j :: 0 <= j < |statuses| ==> statuses[j] == Other
    ensures r != Failed(CannotFork)
    ensures r.Failed? && r.fatal.ExitedNonZero? ==>
              && r.fatal.pid == pid && r.fatal.code != 0
              && exists k :: 0 <= k < |statuses| && statuses[k].Exited? && statuses[k].code == r.fatal.code
                                                && forall j :: 0 <= j < k ==> statuses[j] == Other
  {
    if statuses == [] then StillWaiting
    else match Classify(pid, statuses[0])
         case Some(w) => w
         case None => WaitOutcome(pid, statuses[1..])
  }

  /** The first status that is not Other decides the wait. */
  lemma {:induction false} WaitDecidedAt(pid: int, statuses: seq<WaitStatus>, k: nat)
    requires k < |statuses| && statuses[k] != Other
    requires forall j :: 0 <= j < k ==> statuses[j] == Other
    ensures WaitOutcome(pid, statuses) == Classify(pid, statuses[k]).value
  {
    if k > 0 {
      WaitDecidedAt(pid, statuses[1..], k - 1);
    }
  }

  /**
   * The PANIC of pid_wait reports the deciding status: a non-zero exit with
   * the pid and that exact code, a signal with its number, a failed waitpid
   * with the pid.
   */
  lemma WaitReportsDecidingStatus(pid: int, statuses: seq<WaitStatus>, k: nat)
    requires k < |statuses| && statuses[k] != Other
    requires forall j :: 0 <= j < k ==> statuses[j] == Other
    ensures statuses[k].Exited? && statuses[k].code != 0 ==>
              WaitOutcome(pid, statuses) == Failed(ExitedNonZero(pid, statuses[k].code))
    ensures statuses[k].Signaled? ==> WaitOutcome(pid, statuses) == Failed(KilledBySignal(statuses[k].signal))
    ensures statuses[k] == WaitFailed ==> WaitOutcome(pid, statuses) == Failed(CannotWait(pid))
  {
    WaitDecidedAt(pid, statuses, k);
  }

  /**
   * pid_wait: `while (true)` calls waitpid; an exit with code 0 breaks
   * out, any other exit code, a signal or a failed waitpid PANICs, and
   * every other status loops.
   */
  method PidWait(pid: int, statuses: seq<WaitStatus>) returns (r: Waited)
    ensures r == WaitOutcome(pid, statuses)
  {
    var next := 0;
    while true
      invariant 0 <= next <= |statuses|
      invariant WaitOutcome(pid, statuses) == WaitOutcome(pid, statuses[next..])
      decreases |statuses| - next
    {
      if next == |statuses| {
        return StillWaiting;
      }
      var waitStat := statuses[next];
      assert statuses[next..][1..] == statuses[next + 1..];
      next := next + 1;
      if waitStat.WaitFailed? {
        return Failed(CannotWait(pid));
      }
      if waitStat.Exited? {
        if waitStat.code != 0 {
          return Failed(ExitedNonZero(pid, waitStat.code));
        }
        break;
      }
      if waitStat.Signaled? {
        return Failed(KilledBySignal(waitStat.signal));
      }
    }
    r := Reaped;
  }

  /** What execvp receives for a well-formed Command. */
  function InvocationOf(cmd: Command): Invocation
    requires ArgStrings(cmd.argv).Some?
  {
    Invocation(cmd.cmdName, ArgStrings(cmd.argv).value)
  }

  /** run_cmd without the echo: spawn, then wait. */
  function RunOutcome(inv: Invocation, world: World): (r: Waited)
    ensures r == Failed(CannotFork) <==> world(inv).ForkFailed?
    ensures world(inv).Spawned? ==> r == WaitOutcome(world(inv).pid, world(inv).statuses)
  {
    match world(inv)
    case ForkFailed => Failed(CannotFork)
    case Spawned(pid, statuses) => WaitOutcome(pid, statuses)
  }

  /** run_cmd_async: fork, and in the child execvp; the parent gets the pid. */
  method RunCmdAsync(cmd: Command, world: World) returns (child: Result<int, Fatal>)
    requires ArgStrings(cmd.argv).Some?
    ensures child.Err? <==> world(InvocationOf(cmd)).ForkFailed?
    ensures child.Err? ==> child.error == CannotFork
    ensures child.Ok? ==> child.value == world(InvocationOf(cmd)).pid
  {
    var forked := world(InvocationOf(cmd));
    if forked.ForkFailed? {
      return Err(CannotFork);
    }
    child := Ok(forked.pid);
  }

  /** run_cmd: print_cmd, then pid_wait(run_cmd_async(cmd)). */
  method RunCmd(cmd: Command, world: World) returns (line: string, r: Waited)
    requires ArgStrings(cmd.argv).Some?
    ensures line == InfoLine(ArgStrings(cmd.argv).value)
    ensures r == RunOutcome(InvocationOf(cmd), world)
  {
    line := PrintCmd(cmd);
    var child := RunCmdAsync(cmd, world);
    if child.Err? {
      return line, Failed(child.error);
    }
    r := PidWait(child.value, world(InvocationOf(cmd)).statuses);
  }
}
