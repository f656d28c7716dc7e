/**
 * The stop orchestrator: `stopVMAction.run(force)`. Unless forced, it checks
 * that the instance is running; it then detaches the user-data disk, issues
 * the stop command and reports how it went.
 */
module StopVM {
  import opened Collaborators
  import opened VMStatus

  /** What `run` returns: nil, one of its own errors, or a collaborator's error unchanged. */
  datatype Outcome =
    | Ok
    | AlreadyStopped(id: string)
    | DoesNotExist(id: string)
    | Unrecognized
    | Passthrough(err: GoError)

  /** Everything the stop action did, and what it returned. */
  datatype Execution = Execution(trace: seq<Event>, outcome: Outcome)

  const StoppingNotice: string := "Stopping existing Finch virtual machine..."
  const ForceStoppingNotice: string := "Forcibly stopping Finch virtual machine..."
  const StoppedNotice: string := "Finch virtual machine stopped successfully"
  const StopFailedFormat: string := "Finch virtual machine failed to stop, debug logs:\n%s"

  /** The stop command line: scoped to the instance, with `--force` exactly when forced. */
  function StopArgs(id: string, force: bool): (a: seq<string>)
    ensures |a| >= 2 && a[0] == "stop" && a[|a| - 1] == id
    ensures (|a| == 3 && a[1] == "--force") <==> force
    ensures a != ProbeArgs(id)
  {
    if force then ["stop", "--force", id] else ["stop", id]
  }

  /** The status check of a graceful stop: Ok exactly when the instance is running. */
  function RequireRunning(id: string, s: Script): (x: Execution)
    ensures x.outcome == Ok <==> s.probeError.None? && s.probeOutput == "Running"
    ensures x.outcome.Passthrough? <==> s.probeError.Some?
    ensures s.probeError.Some? ==> x.outcome == Passthrough(s.probeError.value)
    ensures s.probeError.None? && s.probeOutput == "Stopped" ==> x.outcome == AlreadyStopped(id)
    ensures s.probeError.None? && s.probeOutput == "" ==> x.outcome == DoesNotExist(id)
    ensures s.probeError.None? && s.probeOutput !in {"Running", "Stopped", ""} ==> x.outcome == Unrecognized
    ensures x.trace == GetStatus(id, s).trace
  {
    var p := GetStatus(id, s);
    match p.status
    case Failure(err) => Execution(p.trace, Passthrough(err))
    case Success(st) =>
      match st
      case Running => Execution(p.trace, Ok)
      case Stopped => Execution(p.trace, AlreadyStopped(id))
      case Nonexistent => Execution(p.trace, DoesNotExist(id))
      case Unknown => Execution(p.trace, Unrecognized)
  }

  /**
   * Detaches the disk, then issues the stop command. A failing detach ends the
   * run before the stop command; a failing stop command is logged together
   * with its combined output and its error is returned unchanged.
   */
  function StopInstance(id: string, force: bool, s: Script): (x: Execution)
    ensures x.outcome == Ok <==> s.detachError.None? && s.stopError.None?
    ensures s.detachError.Some? ==> x.outcome == Passthrough(s.detachError.value)
    ensures s.detachError.None? && s.stopError.Some? ==> x.outcome == Passthrough(s.stopError.value)
    ensures DetachUserDataDisk in x.trace
    ensures CombinedOutput(StopArgs(id, force)) in x.trace <==> s.detachError.None?
  {
    var notice := Info(if force then ForceStoppingNotice else StoppingNotice);
    var stop := CombinedOutput(StopArgs(id, force));
    match s.detachError
    case Some(err) => Execution([DetachUserDataDisk], Passthrough(err))
    case None =>
      match s.stopError
      case Some(err) =>
        Execution([DetachUserDataDisk, notice, stop, Errorf(StopFailedFormat, s.stopOutput)], Passthrough(err))
      case None => Execution([DetachUserDataDisk, notice, stop, Info(StoppedNotice)], Ok)
  }

  /** `stopVMAction.run(force)` against the scripted collaborators. */
  function Run(id: string, force: bool, s: Script): (x: Execution)
    ensures x.outcome == Ok ==> s.detachError.None? && s.stopError.None?
    ensures !force && x.outcome == Ok ==> s.probeError.None? && s.probeOutput == "Running"
    ensures force ==> x.outcome == Ok || x.outcome.Passthrough?
  {
    if force then StopInstance(id, true, s)
    else
      var check := RequireRunning(id, s);
      if check.outcome != Ok then check
      else
        var stop := StopInstance(id, false, s);
        Execution(check.trace + stop.trace, stop.outcome)
  }

  /** The message of the error `run` returns, or None for a nil error. */
  function ErrorMessage(o: Outcome): (m: Option<string>)
    ensures m.None? <==> o == Ok
  {
    match o
    case Ok => None
    case AlreadyStopped(id) => Some("the instance \"" + id + "\" is already stopped")
    case DoesNotExist(id) => Some("the instance \"" + id + "\" does not exist")
    case Unrecognized => Some("unrecognized system status")
    case Passthrough(err) => Some(err.message)
  }
}
