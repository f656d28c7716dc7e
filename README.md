# Stopping the Finch virtual machine

This project models `finch vm stop` in Dafny. It covers the decision procedure
behind `newStopVMAction(creator, diskManager, logger).run(force)` and the
`--force` flag of the `stop` subcommand.

When not forced, the action asks Lima for the instance's status with
`ls -f "{{.Status}}" <instance>` and logs the raw answer at debug level.
It then classifies the answer by exact match:

- `Running`: the action goes on with the stop.
- `Stopped`: it fails with an "already stopped" error.
- The empty string: it fails with a "does not exist" error.
- Anything else: it fails with the fixed error `unrecognized system status`.

A failing probe returns its own error unchanged. When the instance is running,
or when the stop is forced (which skips the probe), the action detaches the
user-data disk, logs a starting notice and runs `stop <instance>` or
`stop --force <instance>`; the test does not fix the order of these three
steps. If that command fails, the action logs its combined
output at error level and returns the command's error unchanged. Otherwise it
logs a success notice and returns no error.

The model is a pure function: `StopVM.Run(id, force, script)` returns an
`Execution`, which holds the trace of collaborator calls and log records and
the `Outcome` the action returns.

- The instance name (`limaInstanceName` in the source) is the parameter `id`.
- Everything the collaborators return is fixed in advance by a `Script`: the
  probe's output and error, the detach error, and the stop command's combined
  output and error.

The behaviour follows the test `cmd/finch/virtual_machine_stop_test.go`. In
`TestStopVMAction_run` the mocks are strict: each expected call happens exactly
once and no other call happens. (`TestStopVMAction_runAdapter` allows any
number of info records.) The lemmas therefore fix each kind of call and how many times it
happens. They do not fix the order between calls, which the test does not
assert. The trace order `Run` builds is one possible interleaving.

Modules, one per component:

- `Collaborators` (collaborators.dfy): events, scripts, errors and counting
  over traces.
- `VMStatus` (status.dfy): the status prober.
- `StopVM` (stop.dfy): the stop orchestrator and its error messages.
- `StopCommand` (command.dfy): the `--force` flag of the `stop` subcommand.
- `StopProperties` (properties.dfy): one lemma per scripted case and the
  all-inputs trace lemmas.

## Model

| member | source | states |
|---|---|---|
| `VMStatus.ProbeArgs` | cmd/finch/virtual_machine_stop_test.go:101 | The status probe is exactly `ls -f "{{.Status}}" <id>` |
| `VMStatus.Classify` | cmd/finch/virtual_machine_stop_test.go:114-146 | A recognised status is exactly the tool's literal text (`Running`, `Stopped`, `""`); every other text, however close, is unrecognised |
| `VMStatus.ClassifyRoundTrip` | cmd/finch/virtual_machine_stop_test.go:114-146 | Classification matches the literal texts `Running`, `Stopped` and `""` exactly, and is inverse to them; every other string is unrecognised |
| `VMStatus.GetStatus` | cmd/finch/virtual_machine_stop_test.go:147-155 | The probe issues `ls -f "{{.Status}}" <id>` first; it fails exactly when the command errs, returns that error unchanged and then logs nothing; on success it yields the classified status |
| `StopVM.StopArgs` | cmd/finch/virtual_machine_stop_test.go:47-61 | The stop command starts with `stop`, ends with the instance name, carries `--force` as its middle argument exactly when forced, and is never the probe's command line |
| `StopVM.RequireRunning` | cmd/finch/virtual_machine_stop_test.go:114-156 | The status check passes exactly when the probe succeeds with `Running`; a probe error comes back as that same error; `Stopped` gives the already-stopped error and `""` the does-not-exist error, both naming the instance; any other text gives the unrecognised-status error |
| `StopVM.StopInstance` | cmd/finch/virtual_machine_stop_test.go:157-174 | The stop attempt always detaches the disk; the stop command is issued exactly when the detach succeeds; the result is nil exactly when detach and stop both succeed; a failing detach returns its own error, and a failing stop command after a successful detach returns the stop command's own error |
| `StopVM.Run` | cmd/finch/virtual_machine_stop_test.go:96-188 | A nil result implies that detach and stop succeeded and, when not forced, that the probe read exactly `Running`; a forced run fails only with a collaborator's error |
| `StopVM.ErrorMessage` | cmd/finch/virtual_machine_stop_test.go:116-138 | Exactly the nil outcome has no error message |
| `StopCommand.ForceToken` | cmd/finch/virtual_machine_stop_test.go:55-57 | An accepted argument starts with `--force`; any accepted spelling other than the bare flag is `--force=` followed by a non-empty value, and takes that value's boolean |
| `StopCommand.FlagSpellings` | cmd/finch/virtual_machine_stop_test.go:55-57 | For every text, the bare `--force` sets the flag to true and `--force=<text>` gives exactly what `ParseBool` reads from `<text>` (rejected when it does not parse) |
| `StopCommand.ParseForce` | cmd/finch/virtual_machine_stop_test.go:35-65 | The arguments parse exactly when every one of them is a spelling of the `--force` flag; with no arguments the flag is false |
| `StopCommand.LastOccurrenceWins` | cmd/finch/virtual_machine_stop_test.go:53-65 | When an argument sets the flag to `b` and every later argument sets it to `b` too, the parsed flag is `b`; in particular a trailing `--force` selects the forced stop |
| `StopCommand.RunAdapter` | cmd/finch/virtual_machine_stop_test.go:69-83 | The subcommand runs nothing when its arguments do not parse, and otherwise returns exactly the stop action run with the parsed flag |
| `StopCommand.ForcedOnlyWhenAsked` | cmd/finch/virtual_machine_stop_test.go:54-57 | A forced stop is selected only when some argument sets `--force` to true |
| `StopProperties.GracefulStopOfRunningVM` | cmd/finch/virtual_machine_stop_test.go:96-113 | Running and all calls succeed: nil error; one probe, one debug record `Running`, one detach, one `stop <id>`, the stopping and success notices, and nothing else |
| `StopProperties.AlreadyStoppedVM` | cmd/finch/virtual_machine_stop_test.go:114-124 | Probe reads `Stopped`: error `the instance "<id>" is already stopped`; the trace is the probe and its debug record only, so no detach and no stop |
| `StopProperties.NonexistentVM` | cmd/finch/virtual_machine_stop_test.go:125-135 | Probe reads the empty string: error `the instance "<id>" does not exist`; only the probe and its debug record |
| `StopProperties.UnrecognizedVMStatus` | cmd/finch/virtual_machine_stop_test.go:136-146 | Any other probe text: the fixed error `unrecognized system status`; only the probe and its debug record carrying the raw text |
| `StopProperties.ProbeFails` | cmd/finch/virtual_machine_stop_test.go:147-156 | A probe error is returned verbatim, whatever output came with it; the trace is the probe alone, with no debug record, detach or stop |
| `StopProperties.StopCommandFails` | cmd/finch/virtual_machine_stop_test.go:157-175 | A failing stop command's error is returned unchanged; one error record carries its combined output; no success notice |
| `StopProperties.ForcedStop` | cmd/finch/virtual_machine_stop_test.go:176-188 | Forced, whatever the probe would say: nil error; one detach, one `stop --force <id>`, the forcible notice and the success notice, and no probe |
| `StopProperties.DetachFails` | cmd/finch/virtual_machine_stop_test.go:165 | When a stop is attempted and the detach errs, that error is returned and no stop command is issued |
| `StopProperties.RunCounts` | cmd/finch/virtual_machine_stop_test.go:96-188 | For all inputs, the number of calls of each kind (probe, debug, detach, stop, info, error) equals an independent kind-by-kind tabulation of when each step is reached |
| `StopProperties.ProbeCalls` | cmd/finch/virtual_machine_stop_test.go:176-188 | Any probe in a trace belongs to a graceful run and is exactly `ls -f "{{.Status}}" <id>` |
| `StopProperties.StopCalls` | cmd/finch/virtual_machine_stop_test.go:106-107 | A stop command occurs only when forced or probed as exactly Running, and only when the detach succeeded; it carries `--force` exactly when forced (how many: `RunCounts`) |
| `StopProperties.DetachCalls` | cmd/finch/virtual_machine_stop_test.go:104 | The disk is detached when and only when a stop is attempted, and then exactly once |
| `StopProperties.DebugRecords` | cmd/finch/virtual_machine_stop_test.go:103 | Any debug record belongs to a graceful run whose probe succeeded and is `Status of virtual machine: %s` with the raw status |
| `StopProperties.ErrorRecords` | cmd/finch/virtual_machine_stop_test.go:167-172 | An error record occurs only when the stop command fails; it carries the combined output, and the run returns the command's error |
| `StopProperties.InfoRecords` | cmd/finch/virtual_machine_stop_test.go:109-110 | Info records occur only when the stop command is reached: one when it fails, two when it succeeds, among them the graceful or forcible starting notice |
| `StopProperties.SuccessNotice` | cmd/finch/virtual_machine_stop_test.go:185 | The success notice is logged exactly when the run returns no error |
| `StopProperties.SuccessOutcome` | cmd/finch/virtual_machine_stop_test.go:96-188 | The run returns no error exactly when it reaches the stop command and that command succeeds |
| `StopProperties.UnrecognizedHidesValue` | cmd/finch/virtual_machine_stop_test.go:137-143 | Two unrecognised status texts give the same outcome, and the two traces are the same apart from the debug record, which carries the observed text |
| `StopProperties.MessagesIdentifyOutcome` | cmd/finch/virtual_machine_stop_test.go:116-138 | The already-stopped, does-not-exist and unrecognised-status messages determine the outcome, including the instance name |
| `StopProperties.FlagRouting` | cmd/finch/virtual_machine_stop_test.go:35-66 | With no arguments the subcommand runs the graceful stop; with `--force` it runs the forced stop |
| `StopProperties.ForceStopNeedsFlag` | cmd/finch/virtual_machine_stop_test.go:53-65 | Through the subcommand, a `stop --force` command is issued only when an argument set `--force` to true |

## Left out

- Process execution, the Lima backend, the disk manager's internals and the
  logger's output are external collaborators. They appear only as scripted
  results and recorded calls.
- Call order between detach, the notices and the stop command is not stated.
  The mocks do not enforce it, and the forced case lists its expectations in
  another order. `Run` builds one fixed order.
- StopProperties.DetachFails: every scripted case makes the detach succeed.
  The model chooses to return a detach error unchanged, before any stop
  command; the test does not fix this behaviour.
- VMStatus.GetStatus: whitespace trimming of the probe output is not modelled.
  The output is classified as given.
- StopVM.ErrorMessage: Go's `%q` escaping of quotes, backslashes and
  unprintable characters is not modelled. The instance name is wrapped in
  plain double quotes, which matches `%q` for names made of printable
  characters other than `"` and `\`.
- StopCommand.ParseForce: only the `--force` flag is modelled, with pflag's
  boolean syntax `--force` and `--force=<value>` (values as Go's
  `strconv.ParseBool` accepts them). Any other argument is a usage error
  here. Cobra's own argument handling is not part of this model. That covers
  positional-argument validation, `--` and help flags.
- Byte slices (probe output, combined output) are modelled as strings.
- `cmd.Name() == "stop"`, the mock controller and parallel test execution
  are test and CLI plumbing with no behaviour to model.
