/**
 * What the stop action does under each combination of collaborator results.
 *
 * In the scripted run cases the collaborators are strict mocks: every
 * expected call happens exactly once and no other call happens. (The
 * adapter's cases allow any number of info records.) The case lemmas
 * therefore state the whole trace as a multiset, which fixes every call and
 * its count but not their order; the trace lemmas state, for all inputs,
 * which calls of each kind a run makes.
 */
module StopProperties {
  import opened Collaborators
  import opened VMStatus
  import opened StopVM
  import opened StopCommand

  predicate ProbeSucceedsWith(s: Script, raw: string)
  {
    s.probeError.None? && s.probeOutput == raw
  }

  // ---------------------------------------------------------------------------
  // One lemma per scripted case

  lemma GracefulStopOfRunningVM(id: string, s: Script)
    requires ProbeSucceedsWith(s, "Running") && s.detachError.None? && s.stopError.None?
    ensures Run(id, false, s).outcome == Ok
    ensures multiset(Run(id, false, s).trace) ==
              multiset{Output(ProbeArgs(id)), Debugf(StatusLogFormat, "Running"),
                       DetachUserDataDisk, CombinedOutput(["stop", id]),
                       Info(StoppingNotice), Info(StoppedNotice)}
  {
  }

  lemma AlreadyStoppedVM(id: string, s: Script)
    requires ProbeSucceedsWith(s, "Stopped")
    ensures Run(id, false, s).outcome == AlreadyStopped(id)
    ensures ErrorMessage(Run(id, false, s).outcome) ==
              Some("the instance \"" + id + "\" is already stopped")
    ensures multiset(Run(id, false, s).trace) ==
              multiset{Output(ProbeArgs(id)), Debugf(StatusLogFormat, "Stopped")}
  {
  }

  lemma NonexistentVM(id: string, s: Script)
    requires ProbeSucceedsWith(s, "")
    ensures Run(id, false, s).outcome == DoesNotExist(id)
    ensures ErrorMessage(Run(id, false, s).outcome) ==
              Some("the instance \"" + id + "\" does not exist")
    ensures multiset(Run(id, false, s).trace) ==
              multiset{Output(ProbeArgs(id)), Debugf(StatusLogFormat, "")}
  {
  }

  lemma UnrecognizedVMStatus(id: string, s: Script)
    requires s.probeError.None? && s.probeOutput !in {"Running", "Stopped", ""}
    ensures Run(id, false, s).outcome == Unrecognized
    ensures ErrorMessage(Run(id, false, s).outcome) == Some("unrecognized system status")
    ensures multiset(Run(id, false, s).trace) ==
              multiset{Output(ProbeArgs(id)), Debugf(StatusLogFormat, s.probeOutput)}
  {
  }

  lemma ProbeFails(id: string, s: Script)
    requires s.probeError.Some?
    ensures Run(id, false, s).outcome == Passthrough(s.probeError.value)
    ensures ErrorMessage(Run(id, false, s).outcome) == Some(s.probeError.value.message)
    ensures multiset(Run(id, false, s).trace) ==
              multiset{Output(ProbeArgs(id))}
  {
  }

  lemma StopCommandFails(id: string, s: Script)
    requires ProbeSucceedsWith(s, "Running") && s.detachError.None? && s.stopError.Some?
    ensures Run(id, false, s).outcome == Passthrough(s.stopError.value)
    ensures multiset(Run(id, false, s).trace) ==
              multiset{Output(ProbeArgs(id)), Debugf(StatusLogFormat, "Running"),
                       DetachUserDataDisk, CombinedOutput(["stop", id]),
                       Info(StoppingNotice), Errorf(StopFailedFormat, s.stopOutput)}
  {
  }

  lemma ForcedStop(id: string, s: Script)
    requires s.detachError.None? && s.stopError.None?
    ensures Run(id, true, s).outcome == Ok
    ensures multiset(Run(id, true, s).trace) ==
              multiset{DetachUserDataDisk, CombinedOutput(["stop", "--force", id]),
                       Info(ForceStoppingNotice), Info(StoppedNotice)}
  {
  }

  /** Not covered by the scripted cases: a failing detach ends the run before the stop command. */
  lemma DetachFails(id: string, force: bool, s: Script)
    requires StopAttempted(force, s)
    requires s.detachError.Some?
    ensures Run(id, force, s).outcome == Passthrough(s.detachError.value)
    ensures Count(Run(id, force, s).trace, StopCall) == 0
    ensures Count(Run(id, force, s).trace, DetachCall) == 1
  {
    RunCounts(id, force, s, StopCall);
    RunCounts(id, force, s, DetachCall);
  }

  // ---------------------------------------------------------------------------
  // Which calls a run makes, for all inputs

  /** Forced, or probed as exactly Running: the run goes on to detach the disk and stop. */
  predicate StopAttempted(force: bool, s: Script)
  {
    force || ProbeSucceedsWith(s, "Running")
  }

  /** The stop command is reached: a stop is attempted and the disk detached. */
  predicate ReachesStop(force: bool, s: Script)
  {
    StopAttempted(force, s) && s.detachError.None?
  }

  /** The notice logged when the stop command is about to be issued. */
  function StartNotice(force: bool): Event
  {
    Info(if force then ForceStoppingNotice else StoppingNotice)
  }

  /**
   * How many calls of each kind a run makes, tabulated kind by kind from the
   * conditions under which the stop action reaches each step.
   */
  function ExpectedCount(force: bool, s: Script, k: Kind): nat
  {
    match k
    case ProbeCall => if force then 0 else 1
    case DebugRecord => if !force && s.probeError.None? then 1 else 0
    case DetachCall => if StopAttempted(force, s) then 1 else 0
    case StopCall => if ReachesStop(force, s) then 1 else 0
    case InfoRecord => if !ReachesStop(force, s) then 0 else if s.stopError.Some? then 1 else 2
    case ErrorRecord => if ReachesStop(force, s) && s.stopError.Some? then 1 else 0
  }

  /** A run's trace split into the status check and the stop attempt. */
  lemma RunTrace(id: string, force: bool, s: Script)
    ensures force ==> Run(id, force, s).trace == StopInstance(id, true, s).trace
    ensures !force && !ProbeSucceedsWith(s, "Running") ==>
              Run(id, force, s).trace == GetStatus(id, s).trace
    ensures !force && ProbeSucceedsWith(s, "Running") ==>
              Run(id, force, s).trace == GetStatus(id, s).trace + StopInstance(id, false, s).trace
  {
  }

  /** Every run makes exactly the expected number of calls of each kind. */
  lemma RunCounts(id: string, force: bool, s: Script, k: Kind)
    ensures Count(Run(id, force, s).trace, k) == ExpectedCount(force, s, k)
  {
    RunTrace(id, force, s);
    if force {
      StopCounts(id, true, s, k);
    } else if ProbeSucceedsWith(s, "Running") {
      CountAppend(GetStatus(id, s).trace, StopInstance(id, false, s).trace, k);
      ProbeCounts(id, s, k);
      StopCounts(id, false, s, k);
    } else {
      ProbeCounts(id, s, k);
    }
  }

  /** The calls of the status probe alone. */
  lemma ProbeCounts(id: string, s: Script, k: Kind)
    ensures Count(GetStatus(id, s).trace, k) ==
              match k
              case ProbeCall => 1
              case DebugRecord => if s.probeError.None? then 1 else 0
              case _ => 0
  {
  }


  /** The calls of the stop attempt alone. */
  lemma StopCounts(id: string, force: bool, s: Script, k: Kind)
    ensures Count(StopInstance(id, force, s).trace, k) ==
              match k
              case DetachCall => 1
              case StopCall => if s.detachError.None? then 1 else 0
              case InfoRecord => if s.detachError.Some? then 0 else if s.stopError.Some? then 1 else 2
              case ErrorRecord => if s.detachError.None? && s.stopError.Some? then 1 else 0
              case _ => 0
  {
    var t := StopInstance(id, force, s).trace;
    if s.detachError.None? {
      var stop := CombinedOutput(StopArgs(id, force));
      if s.stopError.Some? {
        var last := Errorf(StopFailedFormat, s.stopOutput);
        assert t == [DetachUserDataDisk, StartNotice(force), stop, last];
        CountFour(DetachUserDataDisk, StartNotice(force), stop, last, k);
      } else {
        assert t == [DetachUserDataDisk, StartNotice(force), stop, Info(StoppedNotice)];
        CountFour(DetachUserDataDisk, StartNotice(force), stop, Info(StoppedNotice), k);
      }
    } else {
      assert t[1..] == [];
    }
  }

  /** The particular calls a run makes, each under the condition that it is reached. */
  lemma RunEvents(id: string, force: bool, s: Script)
    ensures !force ==> Output(ProbeArgs(id)) in Run(id, force, s).trace
    ensures !force && s.probeError.None? ==>
              Debugf(StatusLogFormat, s.probeOutput) in Run(id, force, s).trace
    ensures StopAttempted(force, s) ==> DetachUserDataDisk in Run(id, force, s).trace
    ensures ReachesStop(force, s) ==>
              && CombinedOutput(StopArgs(id, force)) in Run(id, force, s).trace
              && StartNotice(force) in Run(id, force, s).trace
    ensures ReachesStop(force, s) && s.stopError.Some? ==>
              Errorf(StopFailedFormat, s.stopOutput) in Run(id, force, s).trace
    ensures ReachesStop(force, s) && s.stopError.None? ==>
              Info(StoppedNotice) in Run(id, force, s).trace
  {
  }


  /** A probe belongs to a graceful run and is scoped to the instance. */
  lemma ProbeCalls(id: string, force: bool, s: Script, e: Event)
    requires e in Run(id, force, s).trace && e.Output?
    ensures !force && e == Output(["ls", "-f", "{{.Status}}", id])
  {
  }

  /**
   * A stop command is issued only when forced or when the probed status is
   * exactly Running, and then only when the detach succeeded; it carries
   * `--force` exactly when the run is forced.
   */
  lemma StopCalls(id: string, force: bool, s: Script, e: Event)
    requires e in Run(id, force, s).trace && e.CombinedOutput?
    ensures ReachesStop(force, s)
    ensures e == CombinedOutput(if force then ["stop", "--force", id] else ["stop", id])
  {
  }

  /** The disk is detached once whenever a stop is attempted, and never otherwise. */
  lemma DetachCalls(id: string, force: bool, s: Script)
    ensures DetachUserDataDisk in Run(id, force, s).trace <==> StopAttempted(force, s)
    ensures Count(Run(id, force, s).trace, DetachCall) == if StopAttempted(force, s) then 1 else 0
  {
    RunCounts(id, force, s, DetachCall);
  }

  /** A debug record belongs to a successful graceful probe and carries the raw status. */
  lemma DebugRecords(id: string, force: bool, s: Script, e: Event)
    requires e in Run(id, force, s).trace && e.Debugf?
    ensures !force && s.probeError.None?
    ensures e == Debugf("Status of virtual machine: %s", s.probeOutput)
  {
  }

  /**
   * An error record is logged only when the stop command fails; it carries
   * the command's combined output, and the run then returns that command's
   * error unchanged.
   */
  lemma ErrorRecords(id: string, force: bool, s: Script, e: Event)
    requires e in Run(id, force, s).trace && e.Errorf?
    ensures ReachesStop(force, s) && s.stopError.Some?
    ensures e == Errorf("Finch virtual machine failed to stop, debug logs:\n%s", s.stopOutput)
    ensures Run(id, force, s).outcome == Passthrough(s.stopError.value)
  {
  }

  /**
   * Info records appear only once the stop command is reached: the graceful
   * or forcible starting notice, then the success notice exactly when the
   * run returns no error.
   */
  lemma InfoRecords(id: string, force: bool, s: Script)
    ensures Count(Run(id, force, s).trace, InfoRecord) ==
              if !ReachesStop(force, s) then 0 else if s.stopError.Some? then 1 else 2
    ensures ReachesStop(force, s) ==> StartNotice(force) in Run(id, force, s).trace
  {
    RunCounts(id, force, s, InfoRecord);
    RunEvents(id, force, s);
  }

  /** The success notice is logged exactly when the run returns no error. */
  lemma SuccessNotice(id: string, force: bool, s: Script)
    ensures Info(StoppedNotice) in Run(id, force, s).trace <==> Run(id, force, s).outcome == Ok
  {
  }


  /** The run returns no error exactly when it reaches the stop command and that succeeds. */
  lemma SuccessOutcome(id: string, force: bool, s: Script)
    ensures Run(id, force, s).outcome == Ok <==> ReachesStop(force, s) && s.stopError.None?
  {
  }

  // ---------------------------------------------------------------------------
  // Classification and error messages

  /**
   * Two unrecognised statuses give the same outcome: the error does not
   * depend on the observed value, which only the debug record carries.
   */
  lemma UnrecognizedHidesValue(id: string, s1: Script, s2: Script)
    requires s1.probeError.None? && s2.probeError.None?
    requires Classify(s1.probeOutput) == Unknown && Classify(s2.probeOutput) == Unknown
    ensures Run(id, false, s1).outcome == Run(id, false, s2).outcome == Unrecognized
    ensures multiset(Run(id, false, s1).trace) - multiset{Debugf(StatusLogFormat, s1.probeOutput)} ==
            multiset(Run(id, false, s2).trace) - multiset{Debugf(StatusLogFormat, s2.probeOutput)}
  {
    UnrecognizedVMStatus(id, s1);
    UnrecognizedVMStatus(id, s2);
  }

  /** The three errors of the status check are told apart by their messages alone. */
  lemma MessagesIdentifyOutcome(o1: Outcome, o2: Outcome)
    requires !o1.Passthrough? && !o2.Passthrough?
    requires ErrorMessage(o1) == ErrorMessage(o2)
    ensures o1 == o2
  {
    match (o1, o2)
    case (AlreadyStopped(a), AlreadyStopped(b)) =>
      IdAt("the instance \"", a, "\" is already stopped");
      IdAt("the instance \"", b, "\" is already stopped");
    case (DoesNotExist(a), DoesNotExist(b)) =>
      IdAt("the instance \"", a, "\" does not exist");
      IdAt("the instance \"", b, "\" does not exist");
    case (AlreadyStopped(a), DoesNotExist(b)) =>
      LastChar("the instance \"" + a, "\" is already stopped");
      LastChar("the instance \"" + b, "\" does not exist");
    case (DoesNotExist(a), AlreadyStopped(b)) =>
      LastChar("the instance \"" + a, "\" does not exist");
      LastChar("the instance \"" + b, "\" is already stopped");
    case (AlreadyStopped(a), Unrecognized) =>
      FirstChar("the instance \"", a + "\" is already stopped");
    case (Unrecognized, AlreadyStopped(b)) =>
      FirstChar("the instance \"", b + "\" is already stopped");
    case (DoesNotExist(a), Unrecognized) =>
      FirstChar("the instance \"", a + "\" does not exist");
    case (Unrecognized, DoesNotExist(b)) =>
      FirstChar("the instance \"", b + "\" does not exist");
    case _ =>
  }

  lemma IdAt(prefix: string, id: string, suffix: string)
    ensures |prefix + id + suffix| == |prefix| + |id| + |suffix|
    ensures (prefix + id + suffix)[|prefix| .. |prefix| + |id|] == id
  {
  }

  lemma LastChar(head: string, tail: string)
    requires tail != []
    ensures (head + tail)[|head + tail| - 1] == tail[|tail| - 1]
  {
  }

  lemma FirstChar(head: string, tail: string)
    requires head != []
    ensures (head + tail)[0] == head[0]
  {
  }

  // ---------------------------------------------------------------------------
  // The command-line adapter

  /** Without arguments the subcommand stops gracefully; `--force` selects the forced stop. */
  lemma FlagRouting(id: string, s: Script)
    ensures RunAdapter(id, [], s) == Some(Run(id, false, s))
    ensures RunAdapter(id, ["--force"], s) == Some(Run(id, true, s))
  {
  }


  /** Through the adapter, a stop command carries `--force` only when an argument asked for it. */
  lemma ForceStopNeedsFlag(id: string, args: seq<string>, s: Script)
    requires RunAdapter(id, args, s).Some?
    requires CombinedOutput(StopArgs(id, true)) in RunAdapter(id, args, s).value.trace
    ensures exists i :: 0 <= i < |args| && ForceToken(args[i]) == Some(true)
  {
  }

}
