/**
 * The per-tool subcommand whitelists that decide whether a shell request from
 * the assistant may run (`validate_*_command` and `validate_command_policy` in
 * commands.rs). The decision is binary: `Ok(())` or `Err(reason)`.
 */
module CommandPolicy {
  import opened Results
  import opened Text

  /** `Iterator::any` over a slice of arguments. */
  predicate AnyArg(args: seq<string>, p: string -> bool)
    ensures AnyArg(args, p) <==> exists i :: 0 <= i < |args| && p(args[i])
  {
    |args| > 0 && (p(args[0]) || AnyArg(args[1..], p))
  }

  predicate IsBranchDeleteFlag(arg: string) {
    arg == "-d" || arg == "--delete" || arg == "-D"
  }

  predicate IsConfigListFlag(arg: string) {
    arg == "--list" || arg == "-l"
  }

  // The refusal messages, word for word.
  const DockerNeedsSubcommand: string := "Docker requires a subcommand."
  const ComposeNeedsSubcommand: string := "Specify a docker compose subcommand."
  const GitNeedsSubcommand: string := "Git requires a subcommand."
  const BranchDeleteRefused: string := "Deleting branches via the agent is not permitted."
  const GitConfigRefused: string := "Only 'git config --list' is permitted via the agent."
  const NpmNeedsSubcommand: string := "npm requires a subcommand."
  const NpmConfigRefused: string := "Only 'npm config list' or 'npm config get ...' are permitted via the agent."
  const NodeNeedsArguments: string := "node requires arguments."
  const PythonNeedsArguments: string := "python requires arguments."
  const PowerShellRefused: string := "Only 'Get-Process' is permitted via PowerShell for safety reasons."
  const CmdRefused: string := "Only 'cmd /c tasklist' is permitted via the agent."

  /** The refusal of a subcommand outside a tool's whitelist. */
  function NotPermitted(tool: string, subcommand: string): string {
    tool + " subcommand '" + subcommand + "' is not permitted. Run it manually if needed."
  }

  /** The refusal of anything but a version check. */
  function VersionOnly(tool: string, argument: string): string {
    tool + " argument '" + argument + "' is not permitted. Only version checks are allowed."
  }

  /** `validate_docker_command`: read-only docker subcommands only. */
  function ValidateDocker(args: seq<string>): (r: Result<()>)
    ensures r.Ok? <==>
      |args| >= 1 && (args[0] in DockerReadOnly || (args[0] == "compose" && |args| >= 2 && args[1] in ComposeReadOnly))
    ensures |args| == 0 ==> r == Err(DockerNeedsSubcommand)
    ensures |args| >= 1 && args[0] !in DockerReadOnly && args[0] != "compose" ==> r == Err(NotPermitted("Docker", args[0]))
    ensures |args| == 1 && args[0] == "compose" ==> r == Err(ComposeNeedsSubcommand)
    ensures |args| >= 2 && args[0] == "compose" && args[1] !in ComposeReadOnly ==>
      r == Err(NotPermitted("Docker compose", args[1]))
  {
    if |args| == 0 then Err(DockerNeedsSubcommand)
    else
      match args[0]
      case "ps" | "stats" | "info" | "version" | "events" | "top" => Ok(())
      case "logs" | "inspect" => Ok(())
      case "compose" =>
        if |args| < 2 then Err(ComposeNeedsSubcommand)
        else (
          match args[1]
          case "ps" | "config" | "ls" | "top" | "logs" => Ok(())
          case other =>
            Err(NotPermitted("Docker compose", other))
        )
      case other => Err(NotPermitted("Docker", other))
  }

  /** `validate_git_command`: inspection subcommands, non-deleting `branch`, `config --list`. */
  function ValidateGit(args: seq<string>): (r: Result<()>)
    ensures |args| == 0 ==> r == Err(GitNeedsSubcommand)
    ensures |args| >= 1 && args[0] in GitReadOnly ==> r == Ok(())
    ensures |args| >= 1 && args[0] == "branch" ==>
      r == if AnyArg(args, IsBranchDeleteFlag) then Err(BranchDeleteRefused) else Ok(())
    ensures |args| >= 1 && args[0] == "config" ==>
      r == if AnyArg(args[1..], IsConfigListFlag) then Ok(()) else Err(GitConfigRefused)
    ensures |args| >= 1 && args[0] !in GitReadOnly && args[0] != "branch" && args[0] != "config" ==>
      r == Err(NotPermitted("Git", args[0]))
  {
    if |args| == 0 then Err(GitNeedsSubcommand)
    else
      match args[0]
      case "status" | "log" | "show" | "diff" | "rev-parse" => Ok(())
      case "branch" =>
        if AnyArg(args, IsBranchDeleteFlag) then Err(BranchDeleteRefused)
        else Ok(())
      case "config" =>
        if AnyArg(args[1..], IsConfigListFlag) then Ok(())
        else Err(GitConfigRefused)
      case other => Err(NotPermitted("Git", other))
  }

  /** `validate_npm_command`: listing subcommands, `config list` and `config get...`. */
  function ValidateNpm(args: seq<string>): (r: Result<()>)
    ensures r.Ok? <==>
      |args| >= 1 &&
      (args[0] in NpmReadOnly || (args[0] == "config" && |args| >= 2 && (args[1] == "list" || StartsWith(args[1], "get"))))
    ensures |args| == 0 ==> r == Err(NpmNeedsSubcommand)
    ensures |args| >= 1 && args[0] !in NpmReadOnly && args[0] != "config" ==> r == Err(NotPermitted("npm", args[0]))
    ensures |args| >= 1 && args[0] == "config" && r.Err? ==> r.error == NpmConfigRefused
  {
    if |args| == 0 then Err(NpmNeedsSubcommand)
    else
      match args[0]
      case "ls" | "list" | "view" | "whoami" => Ok(())
      case "config" =>
        if |args| >= 2 && (args[1] == "list" || args[1] == "get" || StartsWith(args[1], "get")) then Ok(())
        else Err(NpmConfigRefused)
      case other => Err(NotPermitted("npm", other))
  }

  /** `validate_node_command`: version checks only. */
  function ValidateNode(args: seq<string>): (r: Result<()>)
    ensures r.Ok? <==> |args| >= 1 && args[0] in NodeVersionFlags
    ensures |args| == 0 ==> r == Err(NodeNeedsArguments)
    ensures |args| >= 1 && args[0] !in NodeVersionFlags ==> r == Err(VersionOnly("node", args[0]))
  {
    if |args| == 0 then Err(NodeNeedsArguments)
    else
      match args[0]
      case "-v" | "--version" => Ok(())
      case other => Err(VersionOnly("node", other))
  }

  /** `validate_python_command`: version checks only. */
  function ValidatePython(args: seq<string>): (r: Result<()>)
    ensures r.Ok? <==> |args| >= 1 && args[0] in PythonVersionFlags
    ensures |args| == 0 ==> r == Err(PythonNeedsArguments)
    ensures |args| >= 1 && args[0] !in PythonVersionFlags ==> r == Err(VersionOnly("python", args[0]))
  {
    if |args| == 0 then Err(PythonNeedsArguments)
    else
      match args[0]
      case "-v" | "--version" | "-version" => Ok(())
      case other => Err(VersionOnly("python", other))
  }

  /** `validate_powershell_command`: a `-command`/`-c` whose text starts with `get-process`. */
  function ValidatePowerShell(args: seq<string>): (r: Result<()>)
    ensures r.Ok? <==> |args| >= 2 && args[0] in PowerShellCommandFlags && StartsWith(args[1], "get-process")
    ensures r.Err? ==> r.error == PowerShellRefused
  {
    if |args| >= 2 && (args[0] == "-command" || args[0] == "-c") && StartsWith(args[1], "get-process") then Ok(())
    else Err(PowerShellRefused)
  }

  /** `validate_cmd_command`: `/c tasklist` only. */
  function ValidateCmd(args: seq<string>): (r: Result<()>)
    ensures r.Ok? <==> |args| >= 2 && args[0] == "/c" && args[1] == "tasklist"
    ensures r.Err? ==> r.error == CmdRefused
  {
    if |args| >= 2 && args[0] == "/c" && args[1] == "tasklist" then Ok(())
    else Err(CmdRefused)
  }

  /** Every argument lower-cased, in order. */
  function LowerAll(args: seq<string>): (r: seq<string>)
    ensures |r| == |args|
    ensures forall i :: 0 <= i < |args| ==> r[i] == Lower(args[i])
  {
    seq(|args|, i requires 0 <= i < |args| => Lower(args[i]))
  }

  /**
   * `validate_command_policy`: the arguments are lower-cased, then the tool's
   * whitelist decides; a command name outside the seven arms is not checked.
   */
  function ValidateCommandPolicy(command: string, args: seq<string>): (r: Result<()>)
    ensures command !in GatedTools ==> r == Ok(())
    ensures command in GatedTools && args == [] ==> r.Err?
  {
    var lowered := LowerAll(args);
    match command
    case "docker" => ValidateDocker(lowered)
    case "git" => ValidateGit(lowered)
    case "npm" => ValidateNpm(lowered)
    case "node" => ValidateNode(lowered)
    case "python" => ValidatePython(lowered)
    case "powershell" | "pwsh" => ValidatePowerShell(lowered)
    case "cmd" => ValidateCmd(lowered)
    case _ => Ok(())
  }

  // ---------------------------------------------------------------------------
  // A declarative reference for the same policy, written as a table of
  // read-only request shapes over the raw (not yet lower-cased) arguments.
  // ---------------------------------------------------------------------------

  const GatedTools: set<string> := {"docker", "git", "npm", "node", "python", "powershell", "pwsh", "cmd"}
  const DockerReadOnly: set<string> := {"ps", "stats", "info", "version", "events", "top", "logs", "inspect"}
  const ComposeReadOnly: set<string> := {"ps", "config", "ls", "top", "logs"}
  const GitReadOnly: set<string> := {"status", "log", "show", "diff", "rev-parse"}
  const NpmReadOnly: set<string> := {"ls", "list", "view", "whoami"}
  const NodeVersionFlags: set<string> := {"-v", "--version"}
  const PythonVersionFlags: set<string> := {"-v", "--version", "-version"}
  const PowerShellCommandFlags: set<string> := {"-command", "-c"}

  /** A branch-deleting flag, once lower-cased. */
  predicate DeletesBranch(arg: string) {
    Lower(arg) == "-d" || Lower(arg) == "--delete"
  }

  /** A flag asking `git config` for its listing, once lower-cased. */
  predicate ListsConfig(arg: string) {
    Lower(arg) == "--list" || Lower(arg) == "-l"
  }

  ghost predicate DockerPermits(args: seq<string>) {
    |args| >= 1 &&
    (Lower(args[0]) in DockerReadOnly ||
     (Lower(args[0]) == "compose" && |args| >= 2 && Lower(args[1]) in ComposeReadOnly))
  }

  ghost predicate GitPermits(args: seq<string>) {
    |args| >= 1 &&
    (Lower(args[0]) in GitReadOnly ||
     (Lower(args[0]) == "branch" && forall i :: 0 <= i < |args| ==> !DeletesBranch(args[i])) ||
     (Lower(args[0]) == "config" && exists i :: 1 <= i < |args| && ListsConfig(args[i])))
  }

  ghost predicate NpmPermits(args: seq<string>) {
    |args| >= 1 &&
    (Lower(args[0]) in NpmReadOnly ||
     (Lower(args[0]) == "config" && |args| >= 2 &&
      (Lower(args[1]) == "list" || StartsWith(Lower(args[1]), "get"))))
  }

  /** The requests the policy lets through, for a lower-cased command name. */
  ghost predicate PolicyPermits(command: string, args: seq<string>) {
    if command == "docker" then DockerPermits(args)
    else if command == "git" then GitPermits(args)
    else if command == "npm" then NpmPermits(args)
    else if command == "node" then |args| >= 1 && Lower(args[0]) in NodeVersionFlags
    else if command == "python" then |args| >= 1 && Lower(args[0]) in PythonVersionFlags
    else if command == "powershell" || command == "pwsh" then
      |args| >= 2 && Lower(args[0]) in PowerShellCommandFlags && StartsWith(Lower(args[1]), "get-process")
    else if command == "cmd" then |args| >= 2 && Lower(args[0]) == "/c" && Lower(args[1]) == "tasklist"
    else true
  }

  /** No lower-cased text equals "-D": the third delete flag of the git arm can never match. */
  lemma LoweredIsNotUpperFlag(s: string)
    ensures Lower(s) != "-D"
  {
    if |s| == 2 {
      assert Lower(s)[1] == LowerChar(s[1]);
      assert "-D"[1] == 'D';
    }
  }

  lemma GitBranchDecision(args: seq<string>)
    ensures AnyArg(LowerAll(args), IsBranchDeleteFlag) <==> exists i :: 0 <= i < |args| && DeletesBranch(args[i])
  {
    var lowered := LowerAll(args);
    if AnyArg(lowered, IsBranchDeleteFlag) {
      var i :| 0 <= i < |lowered| && IsBranchDeleteFlag(lowered[i]);
      LoweredIsNotUpperFlag(args[i]);
      assert DeletesBranch(args[i]);
    }
    if exists i :: 0 <= i < |args| && DeletesBranch(args[i]) {
      var i :| 0 <= i < |args| && DeletesBranch(args[i]);
      assert IsBranchDeleteFlag(lowered[i]);
    }
  }

  lemma GitConfigDecision(args: seq<string>)
    requires |args| >= 1
    ensures AnyArg(LowerAll(args)[1..], IsConfigListFlag) <==> exists i :: 1 <= i < |args| && ListsConfig(args[i])
  {
    var rest := LowerAll(args)[1..];
    if AnyArg(rest, IsConfigListFlag) {
      var i :| 0 <= i < |rest| && IsConfigListFlag(rest[i]);
      assert ListsConfig(args[i + 1]);
    }
    if exists i :: 1 <= i < |args| && ListsConfig(args[i]) {
      var i :| 1 <= i < |args| && ListsConfig(args[i]);
      assert IsConfigListFlag(rest[i - 1]);
    }
  }

  lemma DockerMatchesReference(args: seq<string>)
    ensures ValidateDocker(LowerAll(args)).Ok? <==> DockerPermits(args)
  {
  }

  lemma GitMatchesReference(args: seq<string>)
    ensures ValidateGit(LowerAll(args)).Ok? <==> GitPermits(args)
  {
    if |args| >= 1 {
      GitBranchDecision(args);
      GitConfigDecision(args);
    }
  }

  lemma NpmMatchesReference(args: seq<string>)
    ensures ValidateNpm(LowerAll(args)).Ok? <==> NpmPermits(args)
  {
  }

  /**
   * The whitelist functions admit exactly the read-only request shapes of the
   * reference table, for every command name and argument list.
   */
  lemma PolicyMatchesReference(command: string, args: seq<string>)
    ensures ValidateCommandPolicy(command, args).Ok? <==> PolicyPermits(command, args)
  {
    if command == "docker" {
      DockerMatchesReference(args);
    } else if command == "git" {
      GitMatchesReference(args);
    } else if command == "npm" {
      NpmMatchesReference(args);
    }
  }

  /** The policy compares arguments case-insensitively: lower-casing them first changes nothing. */
  lemma PolicyIgnoresArgumentCase(command: string, args: seq<string>)
    ensures ValidateCommandPolicy(command, LowerAll(args)) == ValidateCommandPolicy(command, args)
  {
    forall i | 0 <= i < |args| ensures Lower(Lower(args[i])) == Lower(args[i]) {
      LowerIdempotent(args[i]);
    }
    assert LowerAll(LowerAll(args)) == LowerAll(args);
  }

  /** Docker with no subcommand, or with a mutating one, is refused. */
  lemma DockerRejections(x: string)
    ensures ValidateCommandPolicy("docker", []) == Err(DockerNeedsSubcommand)
    ensures ValidateCommandPolicy("docker", ["rm", x]).Err?
  {
    var lowered := LowerAll(["rm", x]);
    LowerKeepsLowered("rm");
    assert lowered[0] == "rm";
  }

  /** `git branch -D main` is refused although the flag is upper-case. */
  lemma GitUpperDeleteRefused()
    ensures ValidateCommandPolicy("git", ["branch", "-D", "main"]).Err?
  {
    var lowered := LowerAll(["branch", "-D", "main"]);
    assert lowered[0] == "branch";
    assert lowered[1] == "-d";
  }

  /** `npm config` accepts any second argument that merely starts with `get`. */
  lemma NpmConfigGetPrefix(suffix: string)
    ensures ValidateCommandPolicy("npm", ["config", "get" + suffix]) == Ok(())
  {
    var lowered := LowerAll(["config", "get" + suffix]);
    LowerConcat("get", suffix);
    assert lowered[0] == "config";
    assert lowered[1][..3] == "get";
  }

  /** PowerShell text only has to start with `get-process`: whatever follows it is admitted. */
  lemma PowerShellPrefixOnly(rest: string)
    ensures ValidateCommandPolicy("pwsh", ["-c", "get-process" + rest]) == Ok(())
  {
    var lowered := LowerAll(["-c", "get-process" + rest]);
    LowerConcat("get-process", rest);
    assert lowered[0] == "-c";
    assert lowered[1][..11] == "get-process";
  }
}
