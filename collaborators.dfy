/**
 * The boundary between the stop action and its collaborators: the command
 * creator (which builds external commands without standard I/O passthrough),
 * the user-data disk manager and the logger. Every interaction with them is
 * recorded as an `Event`, and everything they hand back is fixed in advance
 * by a `Script`.
 */
module Collaborators {

  datatype Option<+T> = None | Some(value: T)

  datatype Result<+T> = Success(value: T) | Failure(error: GoError)

  /** A Go `error` value. Two errors are equal exactly when their messages are. */
  datatype GoError = GoError(message: string)

  /** One observable interaction of the stop action with a collaborator. */
  datatype Event =
      /** `CreateWithoutStdio(args...)` followed by `Output()` on the command it built */
    | Output(args: seq<string>)
      /** `CreateWithoutStdio(args...)` followed by `CombinedOutput()` on the command it built */
    | CombinedOutput(args: seq<string>)
      /** `DetachUserDataDisk()` on the disk manager */
    | DetachUserDataDisk
      /** `Debugf(format, arg)` on the logger */
    | Debugf(format: string, arg: string)
      /** `Info(message)` on the logger */
    | Info(message: string)
      /** `Errorf(format, arg)` on the logger */
    | Errorf(format: string, arg: string)

  /**
   * What the collaborators return, chosen before the run: the standard output
   * and error of the status probe, the error of the disk detach, and the
   * combined output and error of the stop command.
   */
  datatype Script = Script(
    probeOutput: string,
    probeError: Option<GoError>,
    detachError: Option<GoError>,
    stopOutput: string,
    stopError: Option<GoError>)

  /** The kind of collaborator interaction an event records. */
  datatype Kind = ProbeCall | StopCall | DetachCall | DebugRecord | InfoRecord | ErrorRecord

  function KindOf(e: Event): Kind
  {
    match e
    case Output(_) => ProbeCall
    case CombinedOutput(_) => StopCall
    case DetachUserDataDisk => DetachCall
    case Debugf(_, _) => DebugRecord
    case Info(_) => InfoRecord
    case Errorf(_, _) => ErrorRecord
  }

  /** How many events of kind `k` the trace holds. */
  function Count(trace: seq<Event>, k: Kind): (n: nat)
    ensures n <= |trace|
  {
    if trace == [] then 0
    else (if KindOf(trace[0]) == k then 1 else 0) + Count(trace[1..], k)
  }

  lemma {:induction false} CountAppend(a: seq<Event>, b: seq<Event>, k: Kind)
    ensures Count(a + b, k) == Count(a, k) + Count(b, k)
  {
    if a == [] {
      assert a + b == b;
    } else {
      assert (a + b)[1..] == a[1..] + b;
      CountAppend(a[1..], b, k);
    }
  }

  lemma CountCons(e: Event, trace: seq<Event>, k: Kind)
    ensures Count([e] + trace, k) == Tally(e, k) + Count(trace, k)
  {
    assert ([e] + trace)[1..] == trace;
  }

  /** The counts of a trace of four events, one event at a time. */
  lemma CountFour(a: Event, b: Event, c: Event, d: Event, k: Kind)
    ensures Count([a, b, c, d], k) == Tally(a, k) + Tally(b, k) + Tally(c, k) + Tally(d, k)
  {
    var t3 := [d];
    var t2 := [c] + t3;
    var t1 := [b] + t2;
    assert [a, b, c, d] == [a] + t1;
    CountCons(d, [], k);
    assert t3 == [d] + [];
    CountCons(c, t3, k);
    CountCons(b, t2, k);
    CountCons(a, t1, k);
  }

  /** One if `e` is of kind `k`, zero otherwise. */
  function Tally(e: Event, k: Kind): nat
  {
    if KindOf(e) == k then 1 else 0
  }
}
