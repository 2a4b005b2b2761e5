/** The Slurm workflow manager: the sbatch header block of the job script,
    and the translation of squeue/sacct output into an experiment status. */
module Slurm {
  import opened Wrappers
  import opened Text
  import opened Values
  import opened Expansion
  import opened Application
  import opened WorkflowManager
  import opened WorkflowManagerLanguage

  // -----------------------------------------------------------------------
  // Status translation

  /** _STATUS_MAP: scheduler state tokens to experiment status names. */
  const StatusMap: map<string, string> := map[
    "PD" := "SETUP",
    "R" := "RUNNING",
    "CF" := "SETUP",
    "CG" := "COMPLETE",
    "COMPLETED" := "COMPLETE",
    "CANCELLED" := "CANCELLED",
    "CANCELLED+" := "CANCELLED"]

  /** getattr(experiment_status, name) when hasattr holds, None otherwise.
      The members of experiment_status are taken to be the five of
      ExperimentStatus. */
  function StatusNamed(name: string): (s: Option<ExperimentStatus>)
    ensures s.Some? <==> name in {"UNKNOWN", "SETUP", "RUNNING", "COMPLETE", "CANCELLED"}
  {
    if name == "UNKNOWN" then Some(Unknown)
    else if name == "SETUP" then Some(Setup)
    else if name == "RUNNING" then Some(Running)
    else if name == "COMPLETE" then Some(Complete)
    else if name == "CANCELLED" then Some(Cancelled)
    else None
  }

  /** Every name the table yields is a status, so the hasattr test never
      fails for a table entry. */
  lemma StatusMapNamesAreStatuses()
    ensures forall token :: token in StatusMap ==> StatusNamed(StatusMap[token]).Some?
  {
  }

  /** The status a raw runner answer stands for: the mapped status when the
      token is in the table, UNKNOWN for anything else, including no answer. */
  function NormalizeStatus(raw: Option<string>): (s: ExperimentStatus)
    ensures s == Setup <==> raw == Some("PD") || raw == Some("CF")
    ensures s == Running <==> raw == Some("R")
    ensures s == Complete <==> raw == Some("CG") || raw == Some("COMPLETED")
    ensures s == Cancelled <==> raw == Some("CANCELLED") || raw == Some("CANCELLED+")
    ensures s == Unknown <==> raw.None? || raw.value !in StatusMap
  {
    if raw.Some? && raw.value in StatusMap then
      match StatusNamed(StatusMap[raw.value])
      case Some(s) => s
      case None => Unknown
    else
      Unknown
  }

  // -----------------------------------------------------------------------
  // Scheduler commands

  /** What running a scheduler command gives: its standard output, or a
      ProcessError when it exits unsuccessfully. */
  datatype CommandResult = Completed(output: string) | ProcessError(message: string)

  /** The scheduler's command-line tools, as a function of the command name
      and its arguments (processes are not part of this model). */
  datatype Scheduler = Scheduler(run: (string, seq<string>) -> CommandResult)

  /** Failures get_status does not catch. */
  datatype StatusError =
    | CommandFailed(command: string, message: string)
    | ExpansionFailed(error: ExpanderError)

  function SqueueArgs(jobId: string): seq<string> {
    ["-h", "-o", "%t", "-j", jobId]
  }

  function SacctArgs(jobId: string): seq<string> {
    ["-o", "state", "-X", "-n", "-j", jobId]
  }

  /** The output squeue contributes: empty when it fails. */
  function SqueueOutput(sched: Scheduler, jobId: string): string {
    match sched.run("squeue", SqueueArgs(jobId))
    case Completed(out) => out
    case ProcessError(_) => ""
  }

  /** SlurmRunner.get_status as a function of the dry-run flag: no answer in
      a dry run; otherwise squeue's output, or sacct's when squeue gave
      nothing, stripped. A failing sacct propagates. */
  function QueryStatus(dryRun: bool, jobId: string, sched: Scheduler): Result<Option<string>, StatusError> {
    if dryRun then Success(None)
    else if SqueueOutput(sched, jobId) != "" then Success(Some(Strip(SqueueOutput(sched, jobId))))
    else
      match sched.run("sacct", SacctArgs(jobId))
      case Completed(out) => Success(Some(Strip(out)))
      case ProcessError(message) => Failure(CommandFailed("sacct", message))
  }

  /** A command runner: the command a name stands for (the runner's process
      handling is not part of this model). */
  class CommandRunner {
    const name: string
    const command: string

    constructor(name: string, command: string)
      ensures this.name == name && this.command == command
    {
      this.name := name;
      this.command := command;
    }
  }

  /** r is a runner for the scheduler tool `tool`. */
  predicate RunnerFor(r: CommandRunner?, tool: string) {
    r != null && r.name == tool && r.command == tool
  }

  class SlurmRunner {
    var dryRun: bool
    var squeueRunner: CommandRunner?
    var sacctRunner: CommandRunner?
    var runDir: Option<string>

    /** Each runner, once created, runs the tool it is named after. */
    predicate Valid()
      reads this
    {
      (squeueRunner != null ==> RunnerFor(squeueRunner, "squeue")) &&
      (sacctRunner != null ==> RunnerFor(sacctRunner, "sacct"))
    }

    constructor(dryRun: bool := false)
      ensures this.dryRun == dryRun
      ensures squeueRunner == null && sacctRunner == null && runDir == None
      ensures Valid()
    {
      this.dryRun := dryRun;
      squeueRunner := null;
      sacctRunner := null;
      runDir := None;
    }

    /** _ensure_runner(runner_name): creates the runner for the tool on
        first use and keeps an existing one; the other runner is untouched. */
    method EnsureRunner(runnerName: string)
      requires runnerName == "squeue" || runnerName == "sacct"
      requires Valid()
      modifies this`squeueRunner, this`sacctRunner
      ensures Valid()
      ensures runnerName == "squeue" ==> sacctRunner == old(sacctRunner)
      ensures runnerName == "sacct" ==> squeueRunner == old(squeueRunner)
      ensures runnerName == "squeue" && old(squeueRunner) != null ==> squeueRunner == old(squeueRunner)
      ensures runnerName == "sacct" && old(sacctRunner) != null ==> sacctRunner == old(sacctRunner)
      ensures runnerName == "squeue" && old(squeueRunner) == null ==> fresh(squeueRunner) && RunnerFor(squeueRunner, "squeue")
      ensures runnerName == "sacct" && old(sacctRunner) == null ==> fresh(sacctRunner) && RunnerFor(sacctRunner, "sacct")
    {
      if runnerName == "squeue" {
        if squeueRunner == null {
          squeueRunner := new CommandRunner(runnerName, runnerName);
        }
      } else {
        if sacctRunner == null {
          sacctRunner := new CommandRunner(runnerName, runnerName);
        }
      }
    }

    /** set_dry_run(dry_run=False). */
    method SetDryRun(dryRun: bool := false)
      modifies this`dryRun
      ensures this.dryRun == dryRun
    {
      this.dryRun := dryRun;
    }

    /** get_status(job_id): the answer QueryStatus describes. A dry run
        creates no runner; otherwise the squeue runner exists afterwards,
        and the sacct runner is only touched when squeue gave nothing. */
    method GetStatus(jobId: string, sched: Scheduler) returns (r: Result<Option<string>, StatusError>)
      requires Valid()
      modifies this`squeueRunner, this`sacctRunner
      ensures Valid()
      ensures r == QueryStatus(dryRun, jobId, sched)
      ensures dryRun ==> squeueRunner == old(squeueRunner) && sacctRunner == old(sacctRunner)
      ensures !dryRun ==> old(squeueRunner) == null ==> fresh(squeueRunner) && RunnerFor(squeueRunner, "squeue")
      ensures !dryRun && old(squeueRunner) != null ==> squeueRunner == old(squeueRunner)
      ensures SqueueOutput(sched, jobId) != "" ==> sacctRunner == old(sacctRunner)
      ensures !dryRun && SqueueOutput(sched, jobId) == "" && old(sacctRunner) == null ==>
        fresh(sacctRunner) && RunnerFor(sacctRunner, "sacct")
      ensures !dryRun && SqueueOutput(sched, jobId) == "" && old(sacctRunner) != null ==>
        sacctRunner == old(sacctRunner)
    {
      if dryRun {
        return Success(None);
      }
      EnsureRunner("squeue");
      var statusOut: string;
      match sched.run(squeueRunner.command, SqueueArgs(jobId)) {
        case Completed(out) => statusOut := out;
        case ProcessError(_) => statusOut := "";
      }
      if statusOut == "" {
        EnsureRunner("sacct");
        match sched.run(sacctRunner.command, SacctArgs(jobId)) {
          case Completed(out) => statusOut := out;
          case ProcessError(message) => return Failure(CommandFailed("sacct", message));
        }
      }
      r := Success(Some(Strip(statusOut)));
    }
  }

  // -----------------------------------------------------------------------
  // The manager

  /** The three workflow_manager_variable directives of the class body. */
  const SlurmDefinitions: seq<WmVariableDefinition> := [
    WorkflowManagerVariable("job_name", Str("{application_name}_{workload_name}_{experiment_name}"), "Slurm job name"),
    WorkflowManagerVariable("extra_sbatch_headers", Str(""), "Extra sbatch headers added to slurm job script"),
    WorkflowManagerVariable("hostlist", Str("$SLURM_JOB_NODELIST"), "hostlist variable used by various modifiers")]

  /** The sbatch pragmas every job script carries, before any extra ones. */
  const BuiltinPragmas: seq<string> := [
    "#SBATCH -N {n_nodes}",
    "#SBATCH -p {partition}",
    "#SBATCH --ntasks-per-node {processes_per_node}",
    "#SBATCH -J {job_name}",
    "#SBATCH -o {experiment_run_dir}/slurm-%j.out",
    "#SBATCH -e {experiment_run_dir}/slurm-%j.err",
    "#SBATCH --gpus-per-node {gpus_per_node}"]

  /** The extra header lines: the strict expansion of extra_sbatch_headers,
      stripped and split on newlines; none when that expansion fails. */
  function ExtraPragmas(e: Expander): seq<string> {
    match ExpandVarName(e, "extra_sbatch_headers", false)
    case Success(raw) => Split(Strip(raw), '\n')
    case Failure(_) => []
  }

  /** The header block: the pragmas that render, joined by newlines. */
  function SbatchHeaders(e: Expander): string {
    Join(Rendered(e, BuiltinPragmas + ExtraPragmas(e)), "\n")
  }

  /** The status get_status reports, with the file system as a map from the
      paths of regular files to their contents. */
  function SlurmStatus(e: Expander, workspace: Workspace, files: map<string, string>, sched: Scheduler): Result<ExperimentStatus, StatusError> {
    match ExpandVarName(e, "experiment_run_dir", true)
    case Failure(err) => Failure(ExpansionFailed(err))
    case Success(runDir) =>
      var jobIdFile := PathJoin(runDir, ".slurm_job");
      if jobIdFile !in files then Success(Unknown)
      else
        match QueryStatus(workspace.dryRun, Strip(files[jobIdFile]), sched)
        case Failure(err) => Failure(err)
        case Success(raw) => Success(NormalizeStatus(raw))
  }

  /** The job id get_status reads: the stripped contents of `.slurm_job` in
      the experiment's run directory, or None when the run directory does
      not expand or the file is missing. */
  function JobIdRead(e: Expander, files: map<string, string>): (r: Option<string>)
    ensures r.Some? <==> (ExpandVarName(e, "experiment_run_dir", true).Success? &&
                          PathJoin(ExpandVarName(e, "experiment_run_dir", true).value, ".slurm_job") in files)
  {
    match ExpandVarName(e, "experiment_run_dir", true)
    case Failure(_) => None
    case Success(runDir) =>
      var jobIdFile := PathJoin(runDir, ".slurm_job");
      if jobIdFile in files then Some(Strip(files[jobIdFile])) else None
  }

  class Slurm {
    const base: WorkflowManagerBase
    const runner: SlurmRunner

    /** __init__(file_path): a manager named "slurm" with a fresh runner and
        the variables its class body declares. */
    constructor(filePath: string)
      ensures fresh(base) && fresh(runner)
      ensures base.name == Some("slurm") && base.filePath == filePath && base.appInst == null
      ensures base.wmVars == Declared(map[], SlurmDefinitions)
      ensures !runner.dryRun && runner.squeueRunner == null && runner.sacctRunner == null && runner.runDir == None
      ensures runner.Valid()
    {
      var wm := new WorkflowManagerBase(Some("slurm"), filePath);
      ApplyDefinitions(wm, SlurmDefinitions);
      base := wm;
      runner := new SlurmRunner();
    }

    /** _execute_vars(): the variables added to the job script template. */
    method ExecuteVars() returns (vars: map<string, string>)
      requires base.appInst != null
      ensures vars == map["sbatch_headers_str" := SbatchHeaders(base.appInst.expander)]
    {
      var expander := base.appInst.expander;
      var pragmas := BuiltinPragmas;
      assert BuiltinPragmas + [] == BuiltinPragmas;
      match ExpandVarName(expander, "extra_sbatch_headers", false) {
        case Success(raw) => pragmas := pragmas + Split(Strip(raw), '\n');
        case Failure(_) =>
      }
      var rendered := base.ConditionalExpand(pragmas);
      vars := map["sbatch_headers_str" := Join(rendered, "\n")];
    }

    /** get_status(workspace): the status SlurmStatus describes; the runner's
        dry-run flag follows the workspace once the job id has been read. */
    method GetStatus(workspace: Workspace, files: map<string, string>, sched: Scheduler)
      returns (status: Result<ExperimentStatus, StatusError>)
      requires base.appInst != null && runner.Valid()
      modifies runner`dryRun, runner`squeueRunner, runner`sacctRunner
      ensures runner.Valid()
      ensures status == SlurmStatus(base.appInst.expander, workspace, files, sched)
      ensures JobIdRead(base.appInst.expander, files).None? ==>
        && runner.dryRun == old(runner.dryRun)
        && runner.squeueRunner == old(runner.squeueRunner)
        && runner.sacctRunner == old(runner.sacctRunner)
      ensures JobIdRead(base.appInst.expander, files).Some? ==> runner.dryRun == workspace.dryRun
      ensures JobIdRead(base.appInst.expander, files).Some? && workspace.dryRun ==>
        runner.squeueRunner == old(runner.squeueRunner) && runner.sacctRunner == old(runner.sacctRunner)
      ensures JobIdRead(base.appInst.expander, files).Some? && !workspace.dryRun ==>
        RunnerFor(runner.squeueRunner, "squeue")
      ensures JobIdRead(base.appInst.expander, files).Some? && !workspace.dryRun ==>
        (if old(runner.squeueRunner) == null then fresh(runner.squeueRunner)
         else runner.squeueRunner == old(runner.squeueRunner))
      ensures (JobIdRead(base.appInst.expander, files).Some? && !workspace.dryRun &&
               SqueueOutput(sched, JobIdRead(base.appInst.expander, files).value) != "") ==>
        runner.sacctRunner == old(runner.sacctRunner)
      ensures (JobIdRead(base.appInst.expander, files).Some? && !workspace.dryRun &&
               SqueueOutput(sched, JobIdRead(base.appInst.expander, files).value) == "") ==>
        (if old(runner.sacctRunner) == null then fresh(runner.sacctRunner) && RunnerFor(runner.sacctRunner, "sacct")
         else runner.sacctRunner == old(runner.sacctRunner))
    {
      var expander := base.appInst.expander;
      var runDir;
      match ExpandVarName(expander, "experiment_run_dir", true) {
        case Failure(err) => return Failure(ExpansionFailed(err));
        case Success(d) => runDir := d;
      }
      var jobIdFile := PathJoin(runDir, ".slurm_job");
      if jobIdFile !in files {
        return Success(Unknown);
      }
      var jobId := Strip(files[jobIdFile]);
      runner.SetDryRun(workspace.dryRun);
      var raw := runner.GetStatus(jobId, sched);
      match raw {
        case Failure(err) => status := Failure(err);
        case Success(answer) => status := Success(NormalizeStatus(answer));
      }
    }

    /** copy(): a new Slurm manager for the same file. */
    method Copy() returns (c: Slurm)
      ensures fresh(c) && fresh(c.base) && fresh(c.runner)
      ensures c.base.filePath == base.filePath && c.base.name == Some("slurm")
      ensures c.base.appInst == null && c.base.wmVars == Declared(map[], SlurmDefinitions)
      ensures c.runner.Valid() && !c.runner.dryRun
      ensures c.runner.squeueRunner == null && c.runner.sacctRunner == null && c.runner.runDir == None
    {
      c := new Slurm(base.filePath);
    }
  }

  // -----------------------------------------------------------------------
  // Properties

  /** The declared variables are exactly job_name, extra_sbatch_headers and
      hostlist, each with its default and no suggested values. */
  lemma SlurmVariables()
    ensures Declared(map[], SlurmDefinitions).Keys == {"job_name", "extra_sbatch_headers", "hostlist"}
    ensures Declared(map[], SlurmDefinitions)["job_name"].default == Str("{application_name}_{workload_name}_{experiment_name}")
    ensures Declared(map[], SlurmDefinitions)["extra_sbatch_headers"].default == Str("")
    ensures Declared(map[], SlurmDefinitions)["hostlist"].default == Str("$SLURM_JOB_NODELIST")
    ensures forall k :: k in Declared(map[], SlurmDefinitions) ==>
      Declared(map[], SlurmDefinitions)[k].name == k && Declared(map[], SlurmDefinitions)[k].values == None
  {
    var defs := SlurmDefinitions;
    assert defs[..2][..1][..0] == [];
    assert defs[..2][..1] == defs[..1];
    assert defs[..|defs| - 1] == defs[..2];
    var m1 := Declared(map[], defs[..1]);
    assert |defs[..1]| == 1 && defs[..1][0] == defs[0];
    assert m1 == Declared(map[], defs[..1][..0])[defs[0].variable.name := defs[0].variable];
    assert defs[0].variable.name == "job_name";
    assert m1 == map["job_name" := defs[0].variable];
    var m2 := Declared(map[], defs[..2]);
    assert defs[1].variable.name == "extra_sbatch_headers";
    assert m2 == m1["extra_sbatch_headers" := defs[1].variable];
    var m3 := Declared(map[], defs);
    assert defs[2].variable.name == "hostlist";
    assert m3 == m2["hostlist" := defs[2].variable];
    assert m3.Keys == {"job_name", "extra_sbatch_headers", "hostlist"};
  }

  /** Tokens outside the table, and no answer at all, read as UNKNOWN. */
  lemma UnmappedTokenIsUnknown(raw: Option<string>)
    requires raw.None? || raw.value !in StatusMap
    ensures NormalizeStatus(raw) == Unknown
  {
  }

  /** The runner's answer is always stripped. */
  lemma QueryStatusIsStripped(dryRun: bool, jobId: string, sched: Scheduler)
    requires QueryStatus(dryRun, jobId, sched).Success? && QueryStatus(dryRun, jobId, sched).value.Some?
    ensures Strip(QueryStatus(dryRun, jobId, sched).value.value) == QueryStatus(dryRun, jobId, sched).value.value
  {
    var out := if SqueueOutput(sched, jobId) != "" then SqueueOutput(sched, jobId)
      else sched.run("sacct", SacctArgs(jobId)).output;
    StripIdempotent(out);
  }

  /** sacct is not consulted when squeue answers: schedulers that agree on
      squeue's non-empty output give the same answer. */
  lemma SacctIgnoredWhenSqueueAnswers(dryRun: bool, jobId: string, s1: Scheduler, s2: Scheduler)
    requires s1.run("squeue", SqueueArgs(jobId)) == s2.run("squeue", SqueueArgs(jobId))
    requires SqueueOutput(s1, jobId) != ""
    ensures QueryStatus(dryRun, jobId, s1) == QueryStatus(dryRun, jobId, s2)
  {
  }

  /** A failing squeue is treated exactly like one that prints nothing. */
  lemma SqueueFailureFallsBackToSacct(dryRun: bool, jobId: string, s1: Scheduler, s2: Scheduler, message: string)
    requires s1.run("squeue", SqueueArgs(jobId)) == ProcessError(message)
    requires s2.run("squeue", SqueueArgs(jobId)) == Completed("")
    requires s1.run("sacct", SacctArgs(jobId)) == s2.run("sacct", SacctArgs(jobId))
    ensures QueryStatus(dryRun, jobId, s1) == QueryStatus(dryRun, jobId, s2)
  {
  }

  /** A dry run reports UNKNOWN without running anything, and so does a
      missing job-id file. */
  lemma NoQueryMeansUnknown(e: Expander, workspace: Workspace, files: map<string, string>, sched: Scheduler, runDir: string)
    requires ExpandVarName(e, "experiment_run_dir", true) == Success(runDir)
    requires workspace.dryRun || PathJoin(runDir, ".slurm_job") !in files
    ensures SlurmStatus(e, workspace, files, sched) == Success(Unknown)
  {
  }

  /** Only the scheduler's answers for this job matter. */
  lemma StatusDependsOnlyOnJobCommands(e: Expander, workspace: Workspace, files: map<string, string>,
                                       s1: Scheduler, s2: Scheduler, runDir: string, jobId: string)
    requires ExpandVarName(e, "experiment_run_dir", true) == Success(runDir)
    requires PathJoin(runDir, ".slurm_job") in files && jobId == Strip(files[PathJoin(runDir, ".slurm_job")])
    requires s1.run("squeue", SqueueArgs(jobId)) == s2.run("squeue", SqueueArgs(jobId))
    requires s1.run("sacct", SacctArgs(jobId)) == s2.run("sacct", SacctArgs(jobId))
    ensures SlurmStatus(e, workspace, files, s1) == SlurmStatus(e, workspace, files, s2)
  {
  }

  /** Once the job-id file is found, the status is the normalised answer
      of the runner for the stripped id it holds. */
  lemma StatusIsNormalizedAnswer(e: Expander, workspace: Workspace, files: map<string, string>, sched: Scheduler,
                                 runDir: string, jobId: string, answer: Option<string>)
    requires ExpandVarName(e, "experiment_run_dir", true) == Success(runDir)
    requires PathJoin(runDir, ".slurm_job") in files && Strip(files[PathJoin(runDir, ".slurm_job")]) == jobId
    requires QueryStatus(workspace.dryRun, jobId, sched) == Success(answer)
    ensures SlurmStatus(e, workspace, files, sched) == Success(NormalizeStatus(answer))
  {
  }

  /** When extra_sbatch_headers cannot be expanded strictly, the header
      block holds the built-in pragmas only. */
  lemma ExtraHeadersFailing(e: Expander)
    requires ExpandVarName(e, "extra_sbatch_headers", false).Failure?
    ensures SbatchHeaders(e) == Join(Rendered(e, BuiltinPragmas), "\n")
  {
    assert BuiltinPragmas + [] == BuiltinPragmas;
  }

  /** A single extra header line that renders ends the header block, after
      every built-in pragma that renders. */
  lemma ExtraHeaderComesLast(e: Expander, raw: string, line: string)
    requires ExpandVarName(e, "extra_sbatch_headers", false) == Success(raw)
    requires '\n' !in Strip(raw)
    requires e.expandVar(Strip(raw), false) == Success(line) && line != ""
    ensures SbatchHeaders(e) == Join(Rendered(e, BuiltinPragmas) + [line], "\n")
    ensures EndsWith(SbatchHeaders(e), line)
  {
    var extra := Strip(raw);
    SplitWithoutSeparator(extra, '\n');
    assert ExtraPragmas(e) == [extra];
    RenderedLastLine(e, BuiltinPragmas, extra, line);
    JoinEndsWithLast(Rendered(e, BuiltinPragmas) + [line], "\n");
  }

  lemma RenderedLastLine(e: Expander, pragmas: seq<string>, t: string, line: string)
    requires e.expandVar(t, false) == Success(line) && line != ""
    ensures Rendered(e, pragmas + [t]) == Rendered(e, pragmas) + [line]
  {
    assert (pragmas + [t])[..|pragmas|] == pragmas;
  }
}
