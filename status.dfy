/**
 * The status prober: it asks the VM tool for the status field of one
 * instance and classifies the answer by exact, case-sensitive string match.
 */
module VMStatus {
  import opened Collaborators

  datatype Status = Running | Stopped | Nonexistent | Unknown

  /** The status-listing command, scoped to the instance and formatted as its status only. */
  function ProbeArgs(id: string): (a: seq<string>)
    ensures |a| == 4 && a[..3] == ["ls", "-f", "{{.Status}}"] && a[3] == id
  {
    ["ls", "-f", "{{.Status}}", id]
  }

  const StatusLogFormat: string := "Status of virtual machine: %s"

  /** The literal text the VM tool prints for each recognised status. */
  function StatusText(st: Status): (text: string)
    requires st != Unknown
  {
    match st
    case Running => "Running"
    case Stopped => "Stopped"
    case Nonexistent => ""
  }

  /** Exact, case-sensitive matching: a recognised status is the tool's literal text and nothing else. */
  function Classify(raw: string): (st: Status)
    ensures st != Unknown ==> StatusText(st) == raw
    ensures st == Unknown <==> raw !in {"Running", "Stopped", ""}
  {
    if raw == "Running" then Running
    else if raw == "Stopped" then Stopped
    else if raw == "" then Nonexistent
    else Unknown
  }

  /** Classification and the tool's literal texts are inverse to each other. */
  lemma ClassifyRoundTrip(raw: string, st: Status)
    ensures st != Unknown ==> Classify(StatusText(st)) == st
    ensures Classify(raw) != Unknown ==> StatusText(Classify(raw)) == raw
  {
  }

  /** The trace of one probe and what it yields. */
  datatype Probe = Probe(trace: seq<Event>, status: Result<Status>)

  /**
   * Runs the probe against the scripted output. A failing command yields its
   * error unchanged and logs nothing; a successful one logs the raw output at
   * debug level before anything acts on it.
   */
  function GetStatus(id: string, s: Script): (p: Probe)
    ensures |p.trace| >= 1 && p.trace[0] == Output(ProbeArgs(id))
    ensures p.status.Failure? <==> s.probeError.Some?
    ensures p.status.Failure? ==> p.status.error == s.probeError.value && |p.trace| == 1
    ensures p.status.Success? ==> p.status.value == Classify(s.probeOutput)
  {
    match s.probeError
    case Some(err) => Probe([Output(ProbeArgs(id))], Failure(err))
    case None =>
      Probe([Output(ProbeArgs(id)), Debugf(StatusLogFormat, s.probeOutput)], Success(Classify(s.probeOutput)))
  }
}
