/** The commands behind the four action types (cmd/squadron-action-runner/executor.go). The command
    runner is a parameter: it exits with some code and possibly an error. */
module Executor {
  import opened GoStrings
  import ChainEncoding
  import opened Signing

  /** The decoded parameters of an action; Malformed when they do not decode, or when no command
      belongs to the action's type. */
  datatype Action =
    | Malformed
    | RestartDocker(container: string, timeoutSeconds: int)
    | RunShell(command: string)
    | RestartK8s(kind: string, name: string, namespace: string)
    | RestartSystemd(unit: string, strategy: string)

  datatype Ran = Ran(exitCode: int, failed: bool)

  /** The command that was issued (empty for none), the command line reported as planned_command or
      ran_command, and whether the result says success. */
  datatype Issue = Issue(argv: seq<string>, reported: string, success: bool)

  /** The command line an operator approves, one argument per element; `lower` is strings.ToLower. */
  function CommandLine(lower: string -> string, a: Action): seq<string> {
    match a
    case Malformed => []
    case RestartDocker(c, t) => ["docker", "restart", "--time", if t > 0 then ChainEncoding.FormatInt(t) else "10", c]
    case RunShell(c) => Fields(c)
    case RestartK8s(k, n, ns) =>
      var kind := if lower(TrimSpace(k)) == "" then "deployment" else lower(TrimSpace(k));
      ["kubectl", "rollout", "restart", kind + "/" + n, "-n", ns]
    case RestartSystemd(u, s) => ["systemctl", if s == "" then "restart" else s, u]
  }

  /** What is reported for it: shell commands verbatim, the others joined by spaces. */
  function Report(lower: string -> string, a: Action): string {
    if a.RunShell? then a.command else Join(CommandLine(lower, a), " ")
  }

  /** What the dry run issues instead, to see whether the thing is there: nothing for a shell command. */
  function Inspection(lower: string -> string, a: Action): seq<string> {
    match a
    case Malformed => []
    case RestartDocker(c, _) => ["docker", "inspect", "--format", "{{.State.Status}}", c]
    case RunShell(_) => []
    case RestartK8s(k, n, ns) =>
      var kind := if lower(TrimSpace(k)) == "" then "deployment" else lower(TrimSpace(k));
      ["kubectl", "get", kind + "/" + n, "-n", ns, "-o", "jsonpath={.metadata.name} generation={.metadata.generation}"]
    case RestartSystemd(u, _) => ["systemctl", "status", u, "--no-pager"]
  }

  /** Commands that only look. */
  predicate ReadOnly(argv: seq<string>) {
    argv == [] || ["docker", "inspect"] <= argv || ["kubectl", "get"] <= argv || ["systemctl", "status"] <= argv
  }

  /** Exit code 0 without an error. */
  predicate Fine(r: Ran) { !r.failed && r.exitCode == 0 }

  /** Refused in both phases; a shell command with no words in it is, too. */
  predicate Refused(a: Action) { a.Malformed? || (a.RunShell? && Fields(a.command) == []) }

  /** What an action issues: the inspection in a dry run, the command line otherwise. */
  function Outcome(lower: string -> string, a: Action, phase: string, r: Ran): Issue {
    if Refused(a) then Issue([], "", false)
    else if phase == DRY_RUN then Issue(Inspection(lower, a), Report(lower, a), true)
    else Issue(CommandLine(lower, a), Report(lower, a), Fine(r))
  }

  /** executeRestartDocker */
  method ExecuteRestartDocker(lower: string -> string, container: string, timeoutSeconds: int, phase: string, r: Ran)
    returns (i: Issue)
    ensures i == Outcome(lower, RestartDocker(container, timeoutSeconds), phase, r)
  {
    var timeoutArg := ["--time", "10"];
    if timeoutSeconds > 0 {
      timeoutArg := ["--time", ChainEncoding.FormatInt(timeoutSeconds)];
    }
    DockerLines(timeoutArg[1], container);
    if phase == DRY_RUN {
      var planned := "docker restart " + Join(timeoutArg, " ") + " " + container;
      return Issue(["docker", "inspect", "--format", "{{.State.Status}}", container], planned, true);
    }
    var args := ["restart"] + timeoutArg;
    args := args + [container];
    assert args == ["restart", "--time", timeoutArg[1], container];
    return Issue(["docker"] + args, "docker " + Join(args, " "), Fine(r));
  }

  lemma DockerLines(seconds: string, container: string)
    ensures var line := Join(["docker", "restart", "--time", seconds, container], " ");
            && "docker restart " + Join(["--time", seconds], " ") + " " + container == line
            && "docker " + Join(["restart", "--time", seconds, container], " ") == line
  {
    var words := ["docker", "restart", "--time", seconds, container];
    JoinSplit(["docker"], ["restart", "--time", seconds, container], " ");
    assert ["docker"] + ["restart", "--time", seconds, container] == words;
    assert "docker" + " " == "docker ";
    DockerPlanned(seconds, container);
  }

  lemma DockerPlanned(seconds: string, container: string)
    ensures "docker restart " + Join(["--time", seconds], " ") + " " + container ==
            Join(["docker", "restart", "--time", seconds, container], " ")
  {
    JoinSplit(["docker", "restart"], ["--time", seconds, container], " ");
    assert ["docker", "restart"] + ["--time", seconds, container] ==
           ["docker", "restart", "--time", seconds, container];
    JoinSplit(["--time", seconds], [container], " ");
    assert ["--time", seconds] + [container] == ["--time", seconds, container];
    assert "docker" + " " + "restart" + " " == "docker restart ";
  }

  /** executeRunShellAllowlist: split into fields, never through a shell. */
  method ExecuteRunShell(lower: string -> string, command: string, phase: string, r: Ran) returns (i: Issue)
    ensures i == Outcome(lower, RunShell(command), phase, r)
  {
    var fields := Fields(command);
    if |fields| == 0 { return Issue([], "", false); }
    if phase == DRY_RUN { return Issue([], command, true); }
    return Issue([fields[0]] + fields[1..], command, Fine(r));
  }

  /** executeRestartK8s */
  method ExecuteRestartK8s(lower: string -> string, kind: string, name: string, namespace: string, phase: string,
                           r: Ran) returns (i: Issue)
    ensures i == Outcome(lower, RestartK8s(kind, name, namespace), phase, r)
  {
    var k := lower(TrimSpace(kind));
    if k == "" { k := "deployment"; }
    var target := k + "/" + name;
    KubectlLine(target, namespace);
    var line := "kubectl rollout restart " + target + " -n " + namespace;
    if phase == DRY_RUN {
      return Issue(["kubectl", "get", target, "-n", namespace, "-o",
                    "jsonpath={.metadata.name} generation={.metadata.generation}"], line, true);
    }
    return Issue(["kubectl", "rollout", "restart", target, "-n", namespace], line, Fine(r));
  }

  lemma KubectlLine(target: string, namespace: string)
    ensures "kubectl rollout restart " + target + " -n " + namespace ==
            Join(["kubectl", "rollout", "restart", target, "-n", namespace], " ")
  {
    ThreeWords("kubectl", "rollout", "restart");
    ThreeWords(target, "-n", namespace);
    JoinSplit(["kubectl", "rollout", "restart"], [target, "-n", namespace], " ");
    assert ["kubectl", "rollout", "restart"] + [target, "-n", namespace] ==
           ["kubectl", "rollout", "restart", target, "-n", namespace];
    assert "kubectl" + " " + "rollout" + " " + "restart" + " " == "kubectl rollout restart ";
    var tail := target + " " + "-n" + " " + namespace;
    assert "kubectl rollout restart " + tail == "kubectl rollout restart " + target + " -n " + namespace;
  }

  lemma ThreeWords(a: string, b: string, c: string)
    ensures Join([a, b, c], " ") == a + " " + b + " " + c
  {
    JoinSplit([a], [b], " ");
    assert [a] + [b] == [a, b];
    JoinSplit([a, b], [c], " ");
    assert [a, b] + [c] == [a, b, c];
  }

  /** executeRestartSystemd */
  method ExecuteRestartSystemd(lower: string -> string, unit: string, strategy: string, phase: string, r: Ran)
    returns (i: Issue)
    ensures i == Outcome(lower, RestartSystemd(unit, strategy), phase, r)
  {
    var s := strategy;
    if s == "" { s := "restart"; }
    ThreeWords("systemctl", s, unit);
    if phase == DRY_RUN {
      return Issue(["systemctl", "status", unit, "--no-pager"], "systemctl " + s + " " + unit, true);
    }
    var subcommand := s;
    return Issue(["systemctl", subcommand, unit], "systemctl " + subcommand + " " + unit, Fine(r));
  }

  /** ExecuteRequest */
  method ExecuteRequest(lower: string -> string, a: Action, phase: string, r: Ran) returns (i: Issue)
    ensures i == Outcome(lower, a, phase, r)
  {
    match a
    case Malformed => i := Issue([], "", false);
    case RestartDocker(c, t) => i := ExecuteRestartDocker(lower, c, t, phase, r);
    case RunShell(c) => i := ExecuteRunShell(lower, c, phase, r);
    case RestartK8s(k, n, ns) => i := ExecuteRestartK8s(lower, k, n, ns, phase, r);
    case RestartSystemd(u, s) => i := ExecuteRestartSystemd(lower, u, s, phase, r);
  }

  // ---------------------------------------------------------------- what an approval covers

  /** The command reported by the dry run is the one reported by the execution, whatever either
      command did, and the dry run only looked. */
  lemma PlannedIsRan(lower: string -> string, a: Action, phase: string, r: Ran, q: Ran)
    requires phase != DRY_RUN
    ensures var dry, live := Outcome(lower, a, DRY_RUN, r), Outcome(lower, a, phase, q);
            && dry.reported == live.reported && ReadOnly(dry.argv)
            && (if a.RunShell? then live.argv == Fields(dry.reported) else dry.reported == Join(live.argv, " "))
  {
  }

  /** What is acted on is what was looked at, and both are what the parameters say. For docker: the
      container, with the stop timeout asked for or 10 seconds. */
  lemma DockerActsOnInspected(lower: string -> string, container: string, timeoutSeconds: int, phase: string,
                              r: Ran, q: Ran)
    requires phase != DRY_RUN
    ensures var a := RestartDocker(container, timeoutSeconds);
            var dry, live := Outcome(lower, a, DRY_RUN, r).argv, Outcome(lower, a, phase, q).argv;
            && |dry| == 5 && dry[4] == container
            && |live| == 5 && live[..3] == ["docker", "restart", "--time"] && live[4] == dry[4]
            && live[3] == if timeoutSeconds > 0 then ChainEncoding.FormatInt(timeoutSeconds) else "10"
  {
  }

  /** For kubectl: the same target in the same namespace; the target ends in the workload's name, and
      begins with its kind, lower-cased, or deployment. */
  lemma KubectlActsOnInspected(lower: string -> string, kind: string, name: string, namespace: string, phase: string,
                               r: Ran, q: Ran)
    requires phase != DRY_RUN
    ensures var a := RestartK8s(kind, name, namespace);
            var dry, live := Outcome(lower, a, DRY_RUN, r).argv, Outcome(lower, a, phase, q).argv;
            && |dry| == 7 && dry[3] == "-n" && dry[4] == namespace
            && |live| == 6 && live[..3] == ["kubectl", "rollout", "restart"]
            && live[3] == dry[2] && live[4] == "-n" && live[5] == dry[4]
            && var k := lower(TrimSpace(kind)); live[3] == (if k == "" then "deployment" else k) + "/" + name
  {
  }

  /** For systemctl: the same unit, with the strategy asked for or restart. */
  lemma SystemctlActsOnInspected(lower: string -> string, unit: string, strategy: string, phase: string,
                                 r: Ran, q: Ran)
    requires phase != DRY_RUN
    ensures var a := RestartSystemd(unit, strategy);
            var dry, live := Outcome(lower, a, DRY_RUN, r).argv, Outcome(lower, a, phase, q).argv;
            && |dry| == 4 && dry[2] == unit
            && |live| == 3 && live[0] == "systemctl" && live[2] == dry[2]
            && live[1] == if strategy == "" then "restart" else strategy
  {
  }

  /** A shell command issues nothing in a dry run and then runs as its own words; both phases report
      it verbatim. */
  lemma ShellRunsItsWords(lower: string -> string, words: seq<string>, phase: string, r: Ran, q: Ran)
    requires phase != DRY_RUN && words != [] && forall w :: w in words ==> IsWord(w)
    ensures var line := Join(words, " ");
            && Outcome(lower, RunShell(line), DRY_RUN, r) == Issue([], line, true)
            && Outcome(lower, RunShell(line), phase, q).(success := true) == Issue(words, line, true)
  {
    FieldsOfJoin(words);
  }

  /** Success is reported for a dry run of what can run, and for a command that exited with code 0 and
      no error; what does not decode and a blank shell command never succeed. */
  lemma SucceedsExactly(lower: string -> string, a: Action, phase: string, r: Ran)
    ensures Outcome(lower, a, phase, r).success <==>
            && a != Malformed && (a.RunShell? ==> exists i :: 0 <= i < |a.command| && !IsSpace(a.command[i]))
            && (phase == "dry_run" || (r.exitCode == 0 && !r.failed))
  {
    if a.RunShell? { SkipSpaceIs(a.command, 0, |a.command|); }
  }

  /** An operator who reads the planned command word by word reads exactly the argument vector that
      will run, if and only if every argument is a word. */
  lemma ApprovalDeterminesArgv(lower: string -> string, a: Action, phase: string, r: Ran, q: Ran)
    requires phase != DRY_RUN && !Refused(a)
    ensures var dry, live := Outcome(lower, a, DRY_RUN, r), Outcome(lower, a, phase, q);
            Fields(dry.reported) == live.argv <==> forall w :: w in live.argv ==> IsWord(w)
  {
    if a.RunShell? {
      FieldsAreWords(a.command, 0);
    } else {
      FieldsOfJoin(CommandLine(lower, a));
    }
  }
}
