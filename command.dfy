/**
 * The `stop` subcommand's adapter: it reads the boolean `--force` flag from
 * the command-line arguments and hands it to the stop action.
 */
module StopCommand {
  import opened Collaborators
  import StopVM

  /** The spellings Go's `strconv.ParseBool` accepts, and the value of each. */
  function ParseBool(text: string): Option<bool>
  {
    if text in {"1", "t", "T", "TRUE", "true", "True"} then Some(true)
    else if text in {"0", "f", "F", "FALSE", "false", "False"} then Some(false)
    else None
  }

  /**
   * The value one argument gives the force flag, or None if it is not that
   * flag. The bare flag sets it to true, as a boolean flag without a value does.
   */
  function ForceToken(arg: string): (v: Option<bool>)
    ensures v.Some? ==> |arg| >= 7 && arg[..7] == "--force"
    ensures v.Some? && arg != "--force" ==> |arg| > 8 && arg[..8] == "--force=" && v == ParseBool(arg[8..])
  {
    if arg == "--force" then Some(true)
    else if |arg| > 8 && arg[..8] == "--force=" then ParseBool(arg[8..])
    else None
  }

  /**
   * The force flag after all arguments: false when it is never given, the
   * value of its last occurrence otherwise, and None when some argument is
   * not the force flag.
   */
  function ParseForce(args: seq<string>): (r: Option<bool>)
    ensures r.Some? <==> forall i :: 0 <= i < |args| ==> ForceToken(args[i]).Some?
    ensures args == [] ==> r == Some(false)
  {
    if args == [] then Some(false)
    else
      match ParseForce(args[..|args| - 1])
      case None => None
      case Some(_) => ForceToken(args[|args| - 1])
  }

  /** `newStopVMCommand(...)` executed with `args`; None when the arguments do not parse. */
  function RunAdapter(id: string, args: seq<string>, s: Script): (x: Option<StopVM.Execution>)
    ensures x.None? <==> ParseForce(args).None?
    ensures x.Some? ==> x.value == StopVM.Run(id, ParseForce(args).value, s)
  {
    match ParseForce(args)
    case None => None
    case Some(force) => Some(StopVM.Run(id, force, s))
  }

  /** A forced stop is selected only by an argument that sets the flag to true. */
  lemma ForcedOnlyWhenAsked(args: seq<string>)
    requires ParseForce(args) == Some(true)
    ensures exists i :: 0 <= i < |args| && ForceToken(args[i]) == Some(true)
  {
  }

  /**
   * The last occurrence of the flag decides: once an argument sets it to `b`
   * and every later argument sets it to `b` as well, the flag is `b`.
   */
  lemma LastOccurrenceWins(args: seq<string>, i: int, b: bool)
    requires ParseForce(args).Some?
    requires 0 <= i < |args| && ForceToken(args[i]) == Some(b)
    requires forall j :: i < j < |args| ==> ForceToken(args[j]) == Some(b)
    ensures ParseForce(args) == Some(b)
  {
  }

  /**
   * The two spellings of the flag: the bare flag sets it to true, and
   * `--force=<text>` sets it to whatever `strconv.ParseBool` reads from
   * `<text>`, or is rejected when that does not parse.
   */
  lemma FlagSpellings(text: string)
    ensures ForceToken("--force") == Some(true)
    ensures ForceToken("--force=" + text) == ParseBool(text)
  {
    var arg := "--force=" + text;
    assert arg[..8] == "--force=" && arg[8..] == text;
  }
}
