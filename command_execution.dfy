/**
 * `execute_command` in commands.rs: the prefix allow-list on the command name,
 * the per-tool policy, the choice of how the process is launched, and the
 * `CommandResult` handed back. Spawning and waiting for the process is the
 * operating system's job and is a parameter `run` here.
 */
module CommandExecution {
  import opened Results
  import opened Text
  import opened CommandPolicy

  /** `CommandResult`: what the front end receives for every request. */
  datatype CommandResult = CommandResult(
    success: bool,
    stdout: string,
    stderr: string,
    exitCode: Option<int>,
    error: Option<string>)

  /** How a process ended: with an exit code, or (on Unix) killed by a signal, which has no code. */
  datatype ExitStatus = Exited(code: int) | Signalled {
    /** `ExitStatus::success`. */
    predicate Success() {
      Exited? && code == 0
    }

    /** `ExitStatus::code`. */
    function Code(): Option<int> {
      if Exited? then Some(code) else None
    }
  }

  /** `std::process::Output`, with stdout and stderr already decoded. */
  datatype ProcessOutput = ProcessOutput(status: ExitStatus, stdout: string, stderr: string)

  /** A program and its argument vector, as given to `std::process::Command`. */
  datatype Invocation = Invocation(program: string, args: seq<string>)

  /** The names a lower-cased command must start with. */
  const AllowedCommands: seq<string> := ["docker", "git", "npm", "node", "python", "pwsh", "powershell", "cmd"]

  /** The allow-list test: the lower-cased name starts with one of the allowed names. */
  predicate AllowedByPrefix(lowered: string) {
    exists i :: 0 <= i < |AllowedCommands| && StartsWith(lowered, AllowedCommands[i])
  }

  /** The refusal of a name outside the allow-list, which lists the allowed names. */
  function NotAllowed(command: string): (r: string)
    ensures StartsWith(r, "Command '" + command + "'")
  {
    ("Command '" + command + "'") + (" is not allowed. Allowed commands: " + Join(AllowedCommands, ", "))
  }

  /** The two checks made before anything is spawned: the allow-list, then the policy. */
  function CheckCommand(command: string, args: seq<string>): (r: Result<()>)
    ensures r.Ok? <==> AllowedByPrefix(Lower(command)) && PolicyPermits(Lower(command), args)
    ensures !AllowedByPrefix(Lower(command)) ==> r == Err(NotAllowed(command))
    ensures AllowedByPrefix(Lower(command)) ==> r == ValidateCommandPolicy(Lower(command), args)
  {
    var lowered := Lower(command);
    PolicyMatchesReference(lowered, args);
    if !AllowedByPrefix(lowered) then
      Err(NotAllowed(command))
    else
      ValidateCommandPolicy(lowered, args)
  }

  /** The result returned for a refused request: nothing ran, so no output and no exit code. */
  function Refusal(reason: string): (r: CommandResult)
    ensures !r.success && r.error == Some(reason)
    ensures r.stdout == "" && r.stderr == "" && r.exitCode.None?
  {
    CommandResult(false, "", "", None, Some(reason))
  }

  /**
   * The process launched for a permitted request. On Windows only docker and
   * git are started directly; everything else becomes one PowerShell command
   * line made of the name and the arguments joined by spaces.
   */
  function LaunchPlan(command: string, args: seq<string>, onWindows: bool): (r: Invocation)
    ensures !onWindows || Lower(command) == "docker" || Lower(command) == "git" ==> r == Invocation(command, args)
    ensures onWindows && Lower(command) != "docker" && Lower(command) != "git" ==>
      r.program == "powershell" && |r.args| == 2 && r.args[0] == "-Command" && StartsWith(r.args[1], command + " ")
  {
    var lowered := Lower(command);
    if onWindows && lowered != "docker" && lowered != "git" then
      var line := command + " " + Join(args, " ");
      assert line[..|command + " "|] == command + " ";
      Invocation("powershell", ["-Command", line])
    else
      Invocation(command, args)
  }

  /** `{:?}` of an `Option<i32>`. */
  function DebugExitCode(code: Option<int>): string {
    match code
    case Some(c) => "Some(" + IntToDecimal(c) + ")"
    case None => "None"
  }

  /** The result for a process that ran to completion. */
  function Completed(output: ProcessOutput): (r: CommandResult)
    ensures r.success == output.status.Success() && r.exitCode == output.status.Code()
    ensures r.success <==> r.error.None?
    ensures r.success ==> r.exitCode == Some(0)
    ensures !r.success ==> r.error == Some("Command failed with exit code: " + DebugExitCode(output.status.Code()))
    ensures r.stdout == output.stdout && r.stderr == output.stderr
  {
    var success := output.status.Success();
    CommandResult(
      success, output.stdout, output.stderr, output.status.Code(),
      if success then None else Some("Command failed with exit code: " + DebugExitCode(output.status.Code())))
  }

  /**
   * `execute_command`. `run` stands for the operating system: it starts the
   * invocation, waits for it and returns its output, or the error of a failed
   * spawn.
   */
  function ExecuteCommand(
    command: string, args: seq<string>, onWindows: bool,
    run: Invocation -> Result<ProcessOutput>): (r: Result<CommandResult>)
    ensures CheckCommand(command, args).Err? ==> r == Ok(Refusal(CheckCommand(command, args).error))
    ensures CheckCommand(command, args).Ok? && run(LaunchPlan(command, args, onWindows)).Ok? ==>
      r == Ok(Completed(run(LaunchPlan(command, args, onWindows)).value))
    ensures CheckCommand(command, args).Ok? && run(LaunchPlan(command, args, onWindows)).Err? ==>
      r == Err("Failed to execute command: " + run(LaunchPlan(command, args, onWindows)).error)
    ensures r.Err? ==> CheckCommand(command, args).Ok? && run(LaunchPlan(command, args, onWindows)).Err?
    ensures r.Ok? ==> (r.value.success <==> r.value.error.None?) && (r.value.exitCode.None? ==> !r.value.success)
    ensures r.Ok? && r.value.success ==>
      r.value.exitCode == Some(0) && AllowedByPrefix(Lower(command)) && PolicyPermits(Lower(command), args)
  {
    match CheckCommand(command, args)
    case Err(reason) => Ok(Refusal(reason))
    case Ok(_) =>
      match run(LaunchPlan(command, args, onWindows))
      case Err(e) => Err("Failed to execute command: " + e)
      case Ok(output) => Ok(Completed(output))
  }

  /**
   * A refused request gets `success = false`, empty output, no exit code and
   * the reason as its error, whatever the operating system would have done:
   * no process is started for it.
   */
  lemma RefusedRequestNeverSpawns(
    command: string, args: seq<string>, onWindows: bool,
    run: Invocation -> Result<ProcessOutput>, other: Invocation -> Result<ProcessOutput>)
    requires CheckCommand(command, args).Err?
    ensures ExecuteCommand(command, args, onWindows, run) == ExecuteCommand(command, args, onWindows, other)
    ensures ExecuteCommand(command, args, onWindows, run) ==
      Ok(CommandResult(false, "", "", None, Some(CheckCommand(command, args).error)))
  {
  }

  /** Only the one planned launch matters: two systems that agree on it give the same result. */
  lemma OnlyPlannedLaunchMatters(
    command: string, args: seq<string>, onWindows: bool,
    run: Invocation -> Result<ProcessOutput>, other: Invocation -> Result<ProcessOutput>)
    requires run(LaunchPlan(command, args, onWindows)) == other(LaunchPlan(command, args, onWindows))
    ensures ExecuteCommand(command, args, onWindows, run) == ExecuteCommand(command, args, onWindows, other)
  {
  }

  /** A name that does not start with an allowed name is refused, and the message names it. */
  lemma UnlistedNameRefused(command: string, args: seq<string>)
    requires !AllowedByPrefix(Lower(command))
    ensures CheckCommand(command, args) == Err(NotAllowed(command))
    ensures StartsWith(CheckCommand(command, args).error, "Command '" + command + "'")
  {
  }

  /**
   * The prefix test admits any name that merely starts with "docker", and the
   * policy does not check such a name: `dockerx`, with any arguments, passes
   * both checks.
   */
  lemma LongerNamePassesBothChecks(suffix: string, args: seq<string>)
    requires suffix != []
    ensures CheckCommand("docker" + suffix, args) == Ok(())
  {
    var lowered := Lower("docker" + suffix);
    LowerConcat("docker", suffix);
    LowerKeepsLowered("docker");
    assert lowered[..6] == "docker";
    assert StartsWith(lowered, AllowedCommands[0]);
    assert |lowered| > 6;
    assert lowered[0] == 'd';
    assert lowered !in GatedTools;
  }

  /**
   * On Windows, a name such as `node;<anything>` passes both checks and its
   * whole text becomes the command line of a PowerShell process.
   */
  lemma PrefixAdmitsPowerShellText(rest: string)
    ensures CheckCommand("node;" + rest, []) == Ok(())
    ensures LaunchPlan("node;" + rest, [], true) == Invocation("powershell", ["-Command", "node;" + rest + " "])
  {
    var lowered := Lower("node;" + rest);
    LowerConcat("node;", rest);
    LowerKeepsLowered("node;");
    assert lowered[..5] == "node;";
    assert StartsWith(lowered, AllowedCommands[3]);
    assert lowered[4] == ';';
    assert lowered !in GatedTools;
    assert lowered != "docker" && lowered != "git";
    assert "node;" + rest + " " + Join([], " ") == "node;" + rest + " ";
  }

  /**
   * On Windows the PowerShell command line still separates the arguments by
   * single spaces: splitting it at the spaces gives back the name and the
   * arguments, as long as none of them contains a space. Splitting at spaces
   * is this model's approximation of how PowerShell tokenizes the line;
   * quoting and escapes are not modelled.
   */
  lemma WindowsCommandLineKeepsArguments(command: string, args: seq<string>)
    requires Lower(command) != "docker" && Lower(command) != "git"
    requires |args| >= 1 && ' ' !in command
    requires forall k :: 0 <= k < |args| ==> ' ' !in args[k]
    ensures LaunchPlan(command, args, true).program == "powershell"
    ensures Split(LaunchPlan(command, args, true).args[1], ' ') == [command] + args
  {
    var parts := [command] + args;
    assert parts[1..] == args;
    assert Join(parts, " ") == command + " " + Join(args, " ");
    SplitJoin(parts, ' ');
  }

  /**
   * An argument holding a space is split in two on the PowerShell command
   * line, with splitting at spaces standing for PowerShell's tokenizer.
   */
  lemma SpaceInArgumentSplits()
    ensures Split(LaunchPlan("node", ["a b"], true).args[1], ' ') == ["node", "a", "b"]
  {
    LowerKeepsLowered("node");
    assert Join(["a b"], " ") == "a b" == "a" + [' '] + "b";
    assert LaunchPlan("node", ["a b"], true).args[1] == "node" + [' '] + ("a" + [' '] + "b");
    SplitAfterPiece("node", ' ', "a" + [' '] + "b");
    SplitAfterPiece("a", ' ', "b");
    SplitWithoutSeparator("b", ' ');
  }

  /**
   * The node, python and npm arms look at the first arguments only. On Windows
   * the later ones are still joined into the PowerShell command line, so
   * `node -v <anything>` passes both checks and `<anything>` is run as
   * PowerShell text.
   */
  lemma NodeLaterArgumentUnchecked(rest: string)
    ensures CheckCommand("node", ["-v", rest]) == Ok(())
    ensures LaunchPlan("node", ["-v", rest], true) == Invocation("powershell", ["-Command", "node -v " + rest])
  {
    LowerKeepsLowered("node");
    LowerKeepsLowered("-v");
    assert StartsWith("node", AllowedCommands[3]);
    assert LowerAll(["-v", rest])[0] == "-v";
    assert Join(["-v", rest], " ") == "-v " + rest by {
      assert ["-v", rest][1..] == [rest];
    }
    assert "node" + " " + ("-v " + rest) == "node -v " + rest;
  }
}
