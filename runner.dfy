/**
 * One worker of the directory-queue runner: claim a task, extract its command,
 * run it (the child process is an oracle: its return code and its output are
 * inputs), route the task file to the finished or failed directory, and keep
 * the per-task log. Time is abstract: monotonic clock readings are integer
 * ticks and the human-readable timestamps and the duration text are opaque.
 */
module Runner {
  import opened Common
  import opened Text
  import opened TaskFile
  import opened FsModel
  import opened Queue

  /** The options a worker runs with (those that influence the queue and the logs). */
  datatype Config = Config(
    pending: Path,
    running: Path,
    finished: Path,
    failed: Option<Path>,
    logs: Option<Path>,
    idleTimeout: int)

  /** What the environment supplies to one iteration of the worker loop. */
  datatype CycleInput = CycleInput(
    now: int,          // the monotonic clock reading of this iteration
    rc: int,           // the child's return code, if a command is run
    output: string,    // the child's combined stdout and stderr
    startTs: string,   // wall-clock text when the command starts
    endTs: string,     // wall-clock text when it ends
    duration: string)  // the measured duration, already formatted

  /** How one iteration of the worker loop ends. */
  datatype Step =
    | Stop                                                   // idle timeout reached: the worker returns
    | Wait                                                   // nothing claimed: sleep, then poll again
    | Skipped(task: Name, target: FilePath, moved: bool)     // empty command: no process is run
    | Ran(task: Name, cmd: string, rc: int, target: FilePath, moved: bool)
    | Crashed(task: Name)                                    // the log file could not be opened: the worker dies

  /** The result of an iteration: how it ended, the filesystem, and the start of the idle period. */
  datatype Outcome = Outcome(step: Step, tree: Tree, idleStart: int)

  /** Where a failed task goes: the failed directory when configured, else the finished one. */
  function FailureDir(cfg: Config): Path {
    if cfg.failed.Some? then cfg.failed.value else cfg.finished
  }

  /** The directories that hold task files. */
  function QueueDirs(cfg: Config): set<Path> {
    {cfg.pending, cfg.running, cfg.finished} + (if cfg.failed.Some? then {cfg.failed.value} else {})
  }

  /** `<logs>/<stem of the task name>.log`. */
  function LogPath(logs: Path, task: Name): FilePath {
    FilePath(logs, Stem(task) + ".log")
  }

  /** What `run_command` writes before the child's output. */
  function Header(cmd: string): string {
    "CMD: " + cmd + "\n\n"
  }

  /** What `run_command` writes after the child's output. */
  function Footer(rc: int): string {
    "\n\nRETURN_CODE: " + IntToDecimal(rc) + "\n"
  }

  /** What `append_timing_to_log` appends. */
  function Timing(startTs: string, endTs: string, duration: string): string {
    "\nSTART_TS: " + startTs + "\n" + "END_TS: " + endTs + "\n" + "DURATION_S: " + duration + "\n"
  }

  /** A rename whose failure is ignored, as the worker ignores `atomic_move`'s result. */
  function TryMove(t: Tree, src: FilePath, dst: FilePath): Tree {
    if CanMove(t, src, dst) then Moved(t, src, dst) else t
  }

  // ---------------------------------------------------------------------------
  // One iteration of `worker_loop`, as a function of the state before it

  /** No task was claimed: stop once the idle period has lasted the timeout, if there is one. */
  function Idle(cfg: Config, t: Tree, idleStart: int, now: int): Outcome {
    if cfg.idleTimeout > 0 && now - idleStart >= cfg.idleTimeout then Outcome(Stop, t, idleStart)
    else Outcome(Wait, t, idleStart)
  }

  /** The rest of an iteration once `name` has been claimed into the running directory (tree t). */
  function Process(cfg: Config, t: Tree, name: Name, input: CycleInput): Outcome {
    var task := FilePath(cfg.running, name);
    var cmd := ReadFirstNonemptyLine(FileText(t, task));
    if cmd == [] then
      var target := FilePath(FailureDir(cfg), name);
      Outcome(Skipped(name, target, CanMove(t, task, target)), TryMove(t, task, target), input.now)
    else
      var target := FilePath(if input.rc == 0 then cfg.finished else FailureDir(cfg), name);
      match cfg.logs
      case None =>
        Outcome(Ran(name, cmd, input.rc, target, CanMove(t, task, target)), TryMove(t, task, target), input.now)
      case Some(logs) =>
        RunLogged(t, logs, name, cmd, task, target, input)
  }

  /**
   * A command has run and there is a log directory: create it, open the log
   * (the worker dies when that fails), write it, move the task, append the
   * timing block.
   */
  function RunLogged(t: Tree, logs: Path, name: Name, cmd: string, task: FilePath, target: FilePath, input: CycleInput): Outcome {
    var t1 := MadeDir(t, logs);
    var log := LogPath(logs, name);
    if !CanOpen(t1, log) then Outcome(Crashed(name), t1, input.now)
    else
      var body := Header(cmd) + input.output + Footer(input.rc);
      var moved := CanMove(Written(t1, log, body), task, target);
      Outcome(Ran(name, cmd, input.rc, target, moved),
              LogAndRoute(t1, log, task, target, body, Timing(input.startTs, input.endTs, input.duration)), input.now)
  }

  /**
   * The file steps after a command has run with a log: write the log with
   * mode "w", move the task (ignoring a failure), append the timing block.
   */
  function LogAndRoute(t: Tree, log: FilePath, task: FilePath, target: FilePath, body: string, timing: string): Tree
    requires CanOpen(t, log)
  {
    var t2 := Written(t, log, body);
    var t3 := TryMove(t2, task, target);
    if CanOpen(t3, log) then Appended(t3, log, timing) else t3
  }

  /** The name a claim takes from tree t, if any. */
  function ClaimedName(cfg: Config, t: Tree): (n: Option<Name>)
    ensures n.Some? ==> FileText(t, FilePath(cfg.pending, n.value)).Some?
  {
    match Listing(t, cfg.pending)
    case None => None
    case Some(cands) =>
      var i := FirstClaimable(t, cands, cfg.pending, cfg.running);
      if i == |cands| then None else Some(cands[i])
  }

  /** One iteration of the worker loop. */
  function CycleSpec(cfg: Config, t: Tree, idleStart: int, input: CycleInput): Outcome {
    match ClaimedName(cfg, t)
    case None => Idle(cfg, t, idleStart, input.now)
    case Some(n) =>
      Process(cfg, Moved(t, FilePath(cfg.pending, n), FilePath(cfg.running, n)), n, input)
  }

  /** The iteration ends the worker. */
  predicate Ends(step: Step) {
    step.Stop? || step.Crashed?
  }

  datatype RunResult = RunResult(steps: seq<Step>, tree: Tree, idleStart: int)

  /** The worker loop over the readings of successive iterations, until it ends or the readings run out. */
  function RunSpec(cfg: Config, t: Tree, idleStart: int, inputs: seq<CycleInput>): RunResult
    decreases |inputs|
  {
    if inputs == [] then RunResult([], t, idleStart)
    else
      var o := CycleSpec(cfg, t, idleStart, inputs[0]);
      if Ends(o.step) then RunResult([o.step], o.tree, o.idleStart)
      else
        var rest := RunSpec(cfg, o.tree, o.idleStart, inputs[1..]);
        RunResult([o.step] + rest.steps, rest.tree, rest.idleStart)
  }

  /** One iteration of one worker of the pool, with the readings it sees. */
  datatype Turn = Turn(worker: nat, input: CycleInput)

  /** The steps of all the pool's iterations in the order they happened, and the filesystem after them. */
  datatype PoolResult = PoolResult(steps: seq<Step>, tree: Tree)

  /**
   * Several workers with the same options on one filesystem, their iterations
   * interleaved in the order `turns` gives. `idle` holds each live worker's
   * start of idle period; a turn of a worker that has ended, or of no worker,
   * does nothing, and the others go on.
   */
  function PoolSpec(cfg: Config, t: Tree, idle: map<nat, int>, ended: set<nat>, turns: seq<Turn>): PoolResult
    decreases |turns|
  {
    if turns == [] then PoolResult([], t)
    else
      var w := turns[0].worker;
      if w in ended || w !in idle then PoolSpec(cfg, t, idle, ended, turns[1..])
      else
        var o := CycleSpec(cfg, t, idle[w], turns[0].input);
        var rest := PoolSpec(cfg, o.tree, idle[w := o.idleStart], if Ends(o.step) then ended + {w} else ended, turns[1..]);
        PoolResult([o.step] + rest.steps, rest.tree)
  }

  /** The directories `worker_loop` creates before its loop. */
  function StartTree(cfg: Config, t: Tree): Tree {
    var t1 := MadeDir(MadeDir(t, cfg.running), cfg.finished);
    var t2 := if cfg.failed.Some? then MadeDir(t1, cfg.failed.value) else t1;
    if cfg.logs.Some? then MadeDir(t2, cfg.logs.value) else t2
  }

  // ---------------------------------------------------------------------------
  // The worker as an object

  class Worker {
    const cfg: Config
    const fs: FileSystem
    var idleStart: int

    /** The start of `worker_loop`: create the directories and start the idle clock. */
    constructor (cfg: Config, fs: FileSystem, now: int)
      modifies fs
      ensures this.cfg == cfg && this.fs == fs
      ensures fs.dirs == StartTree(cfg, old(fs.dirs))
      ensures idleStart == now
    {
      this.cfg := cfg;
      this.fs := fs;
      idleStart := now;
      new;
      fs.MakeDir(cfg.running);
      fs.MakeDir(cfg.finished);
      if cfg.failed.Some? {
        fs.MakeDir(cfg.failed.value);
      }
      if cfg.logs.Some? {
        fs.MakeDir(cfg.logs.value);
      }
    }

    /** One iteration of the body of `worker_loop`. */
    method Cycle(input: CycleInput) returns (step: Step)
      modifies this, fs
      ensures Outcome(step, fs.dirs, idleStart) == CycleSpec(cfg, old(fs.dirs), old(idleStart), input)
    {
      var claimed := fs.ClaimOneTask(cfg.pending, cfg.running);
      if claimed.None? {
        if cfg.idleTimeout > 0 && input.now - idleStart >= cfg.idleTimeout {
          return Stop;
        }
        return Wait;
      }
      idleStart := input.now;
      var task := claimed.value;
      assert ClaimedName(cfg, old(fs.dirs)) == Some(task.name) && task == FilePath(cfg.running, task.name);
      ghost var t1 := fs.dirs;
      assert CycleSpec(cfg, old(fs.dirs), old(idleStart), input) == Process(cfg, t1, task.name, input);
      var text := fs.ReadText(task);
      var cmd := ReadFirstNonemptyLine(text);
      if cmd == [] {
        var target := FilePath(FailureDir(cfg), task.name);
        var moved := fs.AtomicMove(task, target);
        return Skipped(task.name, target, moved);
      }
      var target := FilePath(if input.rc == 0 then cfg.finished else FailureDir(cfg), task.name);
      if cfg.logs.None? {
        var moved := fs.AtomicMove(task, target);
        return Ran(task.name, cmd, input.rc, target, moved);
      }
      var log := LogPath(cfg.logs.value, task.name);
      fs.MakeDir(log.dir);
      // The log is opened with mode "w": the header, the child's output and
      // the footer go through one handle.
      var isOpen := fs.WriteFile(log, Header(cmd) + input.output + Footer(input.rc));
      if !isOpen {
        return Crashed(task.name);
      }
      var moved := fs.AtomicMove(task, target);
      var _ := fs.AppendFile(log, Timing(input.startTs, input.endTs, input.duration));
      return Ran(task.name, cmd, input.rc, target, moved);
    }

    /**
     * The `while True` loop of `worker_loop`, driven by the readings of its
     * iterations; it returns when the worker ends or the readings run out.
     */
    method Run(inputs: seq<CycleInput>) returns (steps: seq<Step>)
      modifies this, fs
      ensures RunResult(steps, fs.dirs, idleStart) == RunSpec(cfg, old(fs.dirs), old(idleStart), inputs)
    {
      steps := [];
      var k := 0;
      while k < |inputs|
        invariant k <= |inputs|
        invariant var rest := RunSpec(cfg, fs.dirs, idleStart, inputs[k..]);
                  RunSpec(cfg, old(fs.dirs), old(idleStart), inputs) == RunResult(steps + rest.steps, rest.tree, rest.idleStart)
      {
        ghost var done := steps;
        assert inputs[k..][0] == inputs[k] && inputs[k..][1..] == inputs[k + 1..];
        var step := Cycle(inputs[k]);
        steps := steps + [step];
        if Ends(step) {
          return;
        }
        k := k + 1;
        ghost var rest := RunSpec(cfg, fs.dirs, idleStart, inputs[k..]);
        assert done + ([step] + rest.steps) == steps + rest.steps;
      }
    }
  }
}
