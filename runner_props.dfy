/**
 * What one iteration, and a whole run, of the worker loop guarantee:
 * the idle rule, routing by return code, conservation of task names across
 * the queue directories, at most one claim per task, and the log layout.
 */
module RunnerProperties {
  import opened Common
  import opened Text
  import opened TaskFile
  import opened FsModel
  import opened Queue
  import opened Runner

  /** The log directory, when there is one, is not one of the queue directories. */
  predicate LogsApart(cfg: Config) {
    cfg.logs.Some? ==> cfg.logs.value !in QueueDirs(cfg)
  }

  /** The operator's layout: distinct queue directories and a separate log directory. */
  predicate Layout(cfg: Config) {
    && cfg.pending != cfg.running && cfg.pending != cfg.finished && cfg.running != cfg.finished
    && (cfg.failed.Some? ==> cfg.failed.value != cfg.pending && cfg.failed.value != cfg.running
                             && cfg.failed.value != cfg.finished)
    && LogsApart(cfg)
  }

  /** The target directories exist and hold regular files only, so a rename into them cannot clash. */
  predicate Ready(cfg: Config, t: Tree) {
    && cfg.running in t && cfg.finished in t && FailureDir(cfg) in t
    && (forall n | n in t[cfg.finished] :: t[cfg.finished][n].File?)
    && (forall n | n in t[FailureDir(cfg)] :: t[FailureDir(cfg)][n].File?)
  }

  /** The task the iteration claimed, if it claimed one. */
  function TaskOf(step: Step): Option<Name> {
    match step
    case Skipped(n, _, _) => Some(n)
    case Ran(n, _, _, _, _) => Some(n)
    case Crashed(n) => Some(n)
    case _ => None
  }

  /** The command of claimed task n, read from the running directory of t. */
  function Cmd(cfg: Config, t: Tree, n: Name): string {
    ReadFirstNonemptyLine(FileText(t, FilePath(cfg.running, n)))
  }

  /** p lies in the log directory. */
  predicate InLogs(cfg: Config, p: FilePath) {
    cfg.logs.Some? && p.dir == cfg.logs.value
  }

  /** The task's log file can be opened once the log directory exists (true when there are no logs). */
  predicate LogOpens(cfg: Config, t: Tree, n: Name) {
    cfg.logs.Some? ==> CanOpen(MadeDir(t, cfg.logs.value), LogPath(cfg.logs.value, n))
  }

  /** Where a task with an empty command goes. */
  function SkipTarget(cfg: Config, n: Name): FilePath {
    FilePath(FailureDir(cfg), n)
  }

  /** Where a task whose command returned rc goes. */
  function RcTarget(cfg: Config, n: Name, rc: int): FilePath {
    FilePath(if rc == 0 then cfg.finished else FailureDir(cfg), n)
  }

  /** The text the task's log ends up holding. */
  function LogText(cmd: string, input: CycleInput): string {
    Header(cmd) + input.output + Footer(input.rc) + Timing(input.startTs, input.endTs, input.duration)
  }

  // ---------------------------------------------------------------------------
  // The four ways `Process` can go. Each lemma is guarded by its branch
  // condition so that callers combine them without splitting cases.

  lemma SkipCase(cfg: Config, t: Tree, n: Name, input: CycleInput)
    ensures Cmd(cfg, t, n) == [] ==>
            var task, target := FilePath(cfg.running, n), SkipTarget(cfg, n);
            Process(cfg, t, n, input) == Outcome(Skipped(n, target, CanMove(t, task, target)), TryMove(t, task, target), input.now)
  {
  }

  lemma UnloggedCase(cfg: Config, t: Tree, n: Name, input: CycleInput)
    ensures Cmd(cfg, t, n) != [] && cfg.logs.None? ==>
            var task, target := FilePath(cfg.running, n), RcTarget(cfg, n, input.rc);
            Process(cfg, t, n, input)
            == Outcome(Ran(n, Cmd(cfg, t, n), input.rc, target, CanMove(t, task, target)), TryMove(t, task, target), input.now)
  {
  }

  lemma CrashCase(cfg: Config, t: Tree, n: Name, input: CycleInput)
    ensures Cmd(cfg, t, n) != [] && cfg.logs.Some? && !LogOpens(cfg, t, n) ==>
            Process(cfg, t, n, input) == Outcome(Crashed(n), MadeDir(t, cfg.logs.value), input.now)
  {
    if Cmd(cfg, t, n) != [] && cfg.logs.Some? && !LogOpens(cfg, t, n) {
      LoggedShape(cfg, t, n, input);
    }
  }

  lemma LoggedCase(cfg: Config, t: Tree, n: Name, input: CycleInput)
    ensures Cmd(cfg, t, n) != [] && cfg.logs.Some? && LogOpens(cfg, t, n) ==>
            var o := Process(cfg, t, n, input);
            var task, target := FilePath(cfg.running, n), RcTarget(cfg, n, input.rc);
            var t1, log := MadeDir(t, cfg.logs.value), LogPath(cfg.logs.value, n);
            var body := Header(Cmd(cfg, t, n)) + input.output + Footer(input.rc);
            && o.step == Ran(n, Cmd(cfg, t, n), input.rc, target, CanMove(Written(t1, log, body), task, target))
            && o.tree == LogAndRoute(t1, log, task, target, body, Timing(input.startTs, input.endTs, input.duration))
            && o.idleStart == input.now
  {
    if Cmd(cfg, t, n) != [] && cfg.logs.Some? && LogOpens(cfg, t, n) {
      LoggedShape(cfg, t, n, input);
    }
  }

  lemma LoggedShape(cfg: Config, t: Tree, n: Name, input: CycleInput)
    requires cfg.logs.Some? && Cmd(cfg, t, n) != []
    ensures Process(cfg, t, n, input)
            == RunLogged(t, cfg.logs.value, n, Cmd(cfg, t, n), FilePath(cfg.running, n), RcTarget(cfg, n, input.rc), input)
  {
  }

  /** Whatever branch it takes, `Process` reports the task, restarts the idle clock, and ends the worker only when the log cannot be opened. */
  lemma ProcessCases(cfg: Config, t: Tree, n: Name, input: CycleInput)
    ensures var o := Process(cfg, t, n, input);
            && TaskOf(o.step) == Some(n) && o.idleStart == input.now
            && (o.step.Crashed? <==> Cmd(cfg, t, n) != [] && !LogOpens(cfg, t, n))
  {
    SkipCase(cfg, t, n, input);
    UnloggedCase(cfg, t, n, input);
    CrashCase(cfg, t, n, input);
    LoggedCase(cfg, t, n, input);
  }

  /** Only the running, finished, failure and log directories differ between t and r. */
  ghost predicate Untouched(cfg: Config, t: Tree, r: Tree) {
    forall p: FilePath | p.dir != cfg.running && p.dir != cfg.finished && p.dir != FailureDir(cfg) && !InLogs(cfg, p) ::
      Lookup(r, p) == Lookup(t, p)
  }

  /** `Process` changes only the running, finished, failure and log directories. */
  lemma ProcessTouches(cfg: Config, t: Tree, n: Name, input: CycleInput)
    ensures Untouched(cfg, t, Process(cfg, t, n, input).tree)
  {
    SkipTouches(cfg, t, n, input);
    UnloggedTouches(cfg, t, n, input);
    CrashTouches(cfg, t, n, input);
    LoggedTouches(cfg, t, n, input);
  }

  lemma SkipTouches(cfg: Config, t: Tree, n: Name, input: CycleInput)
    ensures Cmd(cfg, t, n) == [] ==> Untouched(cfg, t, Process(cfg, t, n, input).tree)
  {
    if Cmd(cfg, t, n) == [] {
      SkipCase(cfg, t, n, input);
    }
  }

  lemma UnloggedTouches(cfg: Config, t: Tree, n: Name, input: CycleInput)
    ensures Cmd(cfg, t, n) != [] && cfg.logs.None? ==> Untouched(cfg, t, Process(cfg, t, n, input).tree)
  {
    if Cmd(cfg, t, n) != [] && cfg.logs.None? {
      UnloggedUntouched(cfg, t, n, input);
    }
  }

  lemma UnloggedUntouched(cfg: Config, t: Tree, n: Name, input: CycleInput)
    requires Cmd(cfg, t, n) != [] && cfg.logs.None?
    ensures Untouched(cfg, t, Process(cfg, t, n, input).tree)
  {
    UnloggedCase(cfg, t, n, input);
  }

  lemma CrashTouches(cfg: Config, t: Tree, n: Name, input: CycleInput)
    ensures Cmd(cfg, t, n) != [] && cfg.logs.Some? && !LogOpens(cfg, t, n) ==> Untouched(cfg, t, Process(cfg, t, n, input).tree)
  {
    if Cmd(cfg, t, n) != [] && cfg.logs.Some? && !LogOpens(cfg, t, n) {
      CrashCase(cfg, t, n, input);
      MadeDirKeepsEntries(t, cfg.logs.value);
    }
  }

  lemma LoggedTouches(cfg: Config, t: Tree, n: Name, input: CycleInput)
    ensures Cmd(cfg, t, n) != [] && cfg.logs.Some? && LogOpens(cfg, t, n) ==> Untouched(cfg, t, Process(cfg, t, n, input).tree)
  {
    if Cmd(cfg, t, n) != [] && cfg.logs.Some? && LogOpens(cfg, t, n) {
      LoggedUntouched(cfg, t, n, input);
    }
  }

  lemma LoggedUntouched(cfg: Config, t: Tree, n: Name, input: CycleInput)
    requires Cmd(cfg, t, n) != [] && cfg.logs.Some? && LogOpens(cfg, t, n)
    ensures Untouched(cfg, t, Process(cfg, t, n, input).tree)
  {
    LoggedCase(cfg, t, n, input);
    LoggedTreeUntouched(cfg, t, n, Cmd(cfg, t, n), input);
  }

  lemma LoggedTreeUntouched(cfg: Config, t: Tree, n: Name, cmd: string, input: CycleInput)
    requires cfg.logs.Some? && LogOpens(cfg, t, n)
    ensures var logs := cfg.logs.value;
            Untouched(cfg, t, LogAndRoute(MadeDir(t, logs), LogPath(logs, n), FilePath(cfg.running, n), RcTarget(cfg, n, input.rc),
                                          Header(cmd) + input.output + Footer(input.rc), Timing(input.startTs, input.endTs, input.duration)))
  {
    var logs := cfg.logs.value;
    MadeDirKeepsEntries(t, logs);
    LogAndRouteTouches(MadeDir(t, logs), LogPath(logs, n), FilePath(cfg.running, n), RcTarget(cfg, n, input.rc),
                       Header(cmd) + input.output + Footer(input.rc), Timing(input.startTs, input.endTs, input.duration));
  }

  lemma LogAndRouteTouches(t: Tree, log: FilePath, task: FilePath, target: FilePath, body: string, timing: string)
    requires CanOpen(t, log)
    ensures forall p | p != log && p != task && p != target :: Lookup(LogAndRoute(t, log, task, target, body, timing), p) == Lookup(t, p)
  {
  }

  // ---------------------------------------------------------------------------
  // Idle rule

  /**
   * The worker stops only when nothing was claimed, a positive timeout is
   * set and the idle period has lasted at least that long; an idle iteration
   * changes nothing; a claim restarts the idle clock.
   */
  lemma CycleIdleRule(cfg: Config, t: Tree, idleStart: int, input: CycleInput)
    ensures var o := CycleSpec(cfg, t, idleStart, input);
            && (o.step.Stop? <==>
                  ClaimedName(cfg, t).None? && cfg.idleTimeout > 0 && input.now - idleStart >= cfg.idleTimeout)
            && (ClaimedName(cfg, t).None? ==> (o.step.Stop? || o.step.Wait?) && o.tree == t && o.idleStart == idleStart)
            && (ClaimedName(cfg, t).Some? ==> TaskOf(o.step) == ClaimedName(cfg, t) && o.idleStart == input.now)
  {
    match ClaimedName(cfg, t)
    case None =>
    case Some(n) =>
      ProcessCases(cfg, Moved(t, FilePath(cfg.pending, n), FilePath(cfg.running, n)), n, input);
  }

  /** With a timeout of 0 (or less) a worker never stops by itself. */
  lemma {:induction false} NoTimeoutNeverStops(cfg: Config, t: Tree, idleStart: int, inputs: seq<CycleInput>)
    requires cfg.idleTimeout <= 0
    ensures forall k | 0 <= k < |RunSpec(cfg, t, idleStart, inputs).steps| :: !RunSpec(cfg, t, idleStart, inputs).steps[k].Stop?
    decreases |inputs|
  {
    if inputs != [] {
      var o := CycleSpec(cfg, t, idleStart, inputs[0]);
      CycleIdleRule(cfg, t, idleStart, inputs[0]);
      if !Ends(o.step) {
        NoTimeoutNeverStops(cfg, o.tree, o.idleStart, inputs[1..]);
        var rest := RunSpec(cfg, o.tree, o.idleStart, inputs[1..]);
        assert RunSpec(cfg, t, idleStart, inputs).steps == [o.step] + rest.steps;
      }
    }
  }

  /**
   * With nothing to claim and a positive timeout T, the worker waits until the
   * first clock reading at least T after the start of its idle period, and
   * stops there, leaving the filesystem as it was.
   */
  lemma {:induction false} IdleWorkerStops(cfg: Config, t: Tree, idleStart: int, inputs: seq<CycleInput>, k: nat)
    requires cfg.idleTimeout > 0 && ClaimedName(cfg, t).None?
    requires k < |inputs| && inputs[k].now - idleStart >= cfg.idleTimeout
    requires forall j | 0 <= j < k :: inputs[j].now - idleStart < cfg.idleTimeout
    ensures RunSpec(cfg, t, idleStart, inputs) == RunResult(seq(k, _ => Wait) + [Stop], t, idleStart)
  {
    if k > 0 {
      IdleWorkerStops(cfg, t, idleStart, inputs[1..], k - 1);
      assert [Wait] + seq(k - 1, _ => Wait) == seq(k, _ => Wait);
    }
  }

  // ---------------------------------------------------------------------------
  // Conservation of task names

  /** A tree change confined to a directory outside `dirs` keeps the names of `dirs`. */
  lemma ChangedOutside(t: Tree, r: Tree, outside: Path, dirs: set<Path>)
    requires outside !in dirs
    requires r.Keys == t.Keys || r.Keys == t.Keys + {outside}
    requires forall d | d in t && d != outside :: r[d] == t[d]
    ensures NamesAcross(r, dirs) == NamesAcross(t, dirs)
    ensures UniqueIn(t, dirs) <==> UniqueIn(r, dirs)
  {
    SameNamesIn(t, r, dirs);
  }

  lemma TryMoveConserves(t: Tree, src: FilePath, dst: FilePath, dirs: set<Path>)
    requires src.name == dst.name && src.dir in dirs && dst.dir in dirs
    ensures NamesAcross(TryMove(t, src, dst), dirs) == NamesAcross(t, dirs)
    ensures UniqueIn(t, dirs) ==> UniqueIn(TryMove(t, src, dst), dirs)
  {
    if CanMove(t, src, dst) {
      MovedKeepsNames(t, src, dst, dirs);
      if UniqueIn(t, dirs) { MovedKeepsUnique(t, src, dst, dirs); }
    }
  }

  lemma LogAndRouteConserves(t: Tree, log: FilePath, task: FilePath, target: FilePath, body: string, timing: string, dirs: set<Path>)
    requires CanOpen(t, log) && log.dir !in dirs
    requires task.name == target.name && task.dir in dirs && target.dir in dirs
    ensures NamesAcross(LogAndRoute(t, log, task, target, body, timing), dirs) == NamesAcross(t, dirs)
    ensures UniqueIn(t, dirs) ==> UniqueIn(LogAndRoute(t, log, task, target, body, timing), dirs)
  {
    var t2 := Written(t, log, body);
    ChangedOutside(t, t2, log.dir, dirs);
    var t3 := TryMove(t2, task, target);
    TryMoveConserves(t2, task, target, dirs);
    if CanOpen(t3, log) {
      assert t3.Keys == t2.Keys;
      ChangedOutside(t3, Appended(t3, log, timing), log.dir, dirs);
    }
  }

  lemma ProcessConserves(cfg: Config, t: Tree, n: Name, input: CycleInput)
    requires LogsApart(cfg)
    ensures NamesAcross(Process(cfg, t, n, input).tree, QueueDirs(cfg)) == NamesAcross(t, QueueDirs(cfg))
    ensures UniqueIn(t, QueueDirs(cfg)) ==> UniqueIn(Process(cfg, t, n, input).tree, QueueDirs(cfg))
  {
    var q := QueueDirs(cfg);
    var task := FilePath(cfg.running, n);
    SkipCase(cfg, t, n, input);
    UnloggedCase(cfg, t, n, input);
    CrashCase(cfg, t, n, input);
    LoggedCase(cfg, t, n, input);
    TryMoveConserves(t, task, SkipTarget(cfg, n), q);
    TryMoveConserves(t, task, RcTarget(cfg, n, input.rc), q);
    if cfg.logs.Some? {
      var logs := cfg.logs.value;
      var t1 := MadeDir(t, logs);
      ChangedOutside(t, t1, logs, q);
      if CanOpen(t1, LogPath(logs, n)) {
        LogAndRouteConserves(t1, LogPath(logs, n), task, RcTarget(cfg, n, input.rc),
                             Header(Cmd(cfg, t, n)) + input.output + Footer(input.rc),
                             Timing(input.startTs, input.endTs, input.duration), q);
      }
    }
  }

  /**
   * One iteration keeps the set of task names found across the pending,
   * running, finished and failed directories, and never puts a name in two
   * of them.
   */
  lemma CycleConserves(cfg: Config, t: Tree, idleStart: int, input: CycleInput)
    requires LogsApart(cfg)
    ensures NamesAcross(CycleSpec(cfg, t, idleStart, input).tree, QueueDirs(cfg)) == NamesAcross(t, QueueDirs(cfg))
    ensures UniqueIn(t, QueueDirs(cfg)) ==> UniqueIn(CycleSpec(cfg, t, idleStart, input).tree, QueueDirs(cfg))
  {
    match ClaimedName(cfg, t)
    case None =>
    case Some(n) =>
      var q := QueueDirs(cfg);
      var src, dst := FilePath(cfg.pending, n), FilePath(cfg.running, n);
      var t1 := Moved(t, src, dst);
      MovedKeepsNames(t, src, dst, q);
      if UniqueIn(t, q) { MovedKeepsUnique(t, src, dst, q); }
      ProcessConserves(cfg, t1, n, input);
  }

  /** A whole run keeps the task names and the "in exactly one directory" invariant. */
  lemma {:induction false} RunConserves(cfg: Config, t: Tree, idleStart: int, inputs: seq<CycleInput>)
    requires LogsApart(cfg)
    ensures NamesAcross(RunSpec(cfg, t, idleStart, inputs).tree, QueueDirs(cfg)) == NamesAcross(t, QueueDirs(cfg))
    ensures UniqueIn(t, QueueDirs(cfg)) ==> UniqueIn(RunSpec(cfg, t, idleStart, inputs).tree, QueueDirs(cfg))
    decreases |inputs|
  {
    if inputs != [] {
      var o := CycleSpec(cfg, t, idleStart, inputs[0]);
      CycleConserves(cfg, t, idleStart, inputs[0]);
      if !Ends(o.step) {
        RunConserves(cfg, o.tree, o.idleStart, inputs[1..]);
      }
    }
  }

  // ---------------------------------------------------------------------------
  // Routing and the log

  /**
   * Task n went from the running directory to `target` with its entry, and
   * every other path outside the log directory is as it was.
   */
  ghost predicate Routed(cfg: Config, t: Tree, r: Tree, n: Name, target: FilePath) {
    && Lookup(r, target) == Lookup(t, FilePath(cfg.running, n))
    && Lookup(r, FilePath(cfg.running, n)).None?
    && forall p | p != FilePath(cfg.running, n) && p != target && !InLogs(cfg, p) :: Lookup(r, p) == Lookup(t, p)
  }

  /** Under the layout, a task file in `running` can always be renamed into a ready target directory. */
  lemma MoveToTargetSucceeds(cfg: Config, t: Tree, n: Name, dir: Path)
    requires Layout(cfg) && Ready(cfg, t) && FileText(t, FilePath(cfg.running, n)).Some?
    requires dir == cfg.finished || dir == FailureDir(cfg)
    ensures CanMove(t, FilePath(cfg.running, n), FilePath(dir, n))
    ensures Routed(cfg, t, Moved(t, FilePath(cfg.running, n), FilePath(dir, n)), n, FilePath(dir, n))
  {
    assert t[cfg.running][n].File?;
  }

  /** Writing a log outside the task's directories does not disturb the move of the task. */
  lemma LoggedMove(t: Tree, log: FilePath, task: FilePath, target: FilePath, body: string, timing: string)
    requires CanOpen(t, log) && CanMove(t, task, target) && task != target
    requires log.dir != task.dir && log.dir != target.dir
    ensures CanMove(Written(t, log, body), task, target)
    ensures var r := LogAndRoute(t, log, task, target, body, timing);
            && Lookup(r, log) == Some(File(body + timing))
            && Lookup(r, target) == Lookup(t, task)
            && Lookup(r, task).None?
            && forall p | p != log && p != task && p != target :: Lookup(r, p) == Lookup(t, p)
  {
    var t2 := Written(t, log, body);
    assert Lookup(t2, task) == Lookup(t, task) && Lookup(t2, target) == Lookup(t, target);
    assert t2[task.dir] == t[task.dir];
    var t3 := Moved(t2, task, target);
    assert Lookup(t3, log) == Some(File(body));
  }

  /** Empty command: the task goes to the failure directory and nothing else changes. */
  lemma ProcessSkips(cfg: Config, t: Tree, n: Name, input: CycleInput)
    requires Layout(cfg) && Ready(cfg, t) && FileText(t, FilePath(cfg.running, n)).Some?
    requires Cmd(cfg, t, n) == []
    ensures var o := Process(cfg, t, n, input);
            && o.step == Skipped(n, SkipTarget(cfg, n), true)
            && Routed(cfg, t, o.tree, n, SkipTarget(cfg, n))
  {
    SkipCase(cfg, t, n, input);
    MoveToTargetSucceeds(cfg, t, n, FailureDir(cfg));
  }

  /** A command run without a log directory: the task is routed by the return code. */
  lemma ProcessRunsUnlogged(cfg: Config, t: Tree, n: Name, input: CycleInput)
    requires Layout(cfg) && Ready(cfg, t) && FileText(t, FilePath(cfg.running, n)).Some?
    requires Cmd(cfg, t, n) != [] && cfg.logs.None?
    ensures var o := Process(cfg, t, n, input);
            && o.step == Ran(n, Cmd(cfg, t, n), input.rc, RcTarget(cfg, n, input.rc), true)
            && Routed(cfg, t, o.tree, n, RcTarget(cfg, n, input.rc))
  {
    UnloggedCase(cfg, t, n, input);
    MoveToTargetSucceeds(cfg, t, n, RcTarget(cfg, n, input.rc).dir);
  }

  /**
   * A command run with a log directory: the task is routed by the return
   * code, and the log holds the header, the child's output, the return-code
   * footer and then the timing block.
   */
  lemma ProcessRunsLogged(cfg: Config, t: Tree, n: Name, input: CycleInput)
    requires Layout(cfg) && Ready(cfg, t) && FileText(t, FilePath(cfg.running, n)).Some?
    requires Cmd(cfg, t, n) != [] && cfg.logs.Some? && LogOpens(cfg, t, n)
    ensures var o := Process(cfg, t, n, input);
            && o.step == Ran(n, Cmd(cfg, t, n), input.rc, RcTarget(cfg, n, input.rc), true)
            && Routed(cfg, t, o.tree, n, RcTarget(cfg, n, input.rc))
            && Lookup(o.tree, LogPath(cfg.logs.value, n)) == Some(File(LogText(Cmd(cfg, t, n), input)))
  {
    LoggedCase(cfg, t, n, input);
    LoggedTreeRoutes(cfg, t, n, Cmd(cfg, t, n), input);
  }

  /** The file steps after a logged run, on their own: the task is routed and the log is complete. */
  lemma LoggedTreeRoutes(cfg: Config, t: Tree, n: Name, cmd: string, input: CycleInput)
    requires Layout(cfg) && Ready(cfg, t) && FileText(t, FilePath(cfg.running, n)).Some?
    requires cfg.logs.Some? && LogOpens(cfg, t, n)
    ensures var task, target := FilePath(cfg.running, n), RcTarget(cfg, n, input.rc);
            var t1, log := MadeDir(t, cfg.logs.value), LogPath(cfg.logs.value, n);
            var body := Header(cmd) + input.output + Footer(input.rc);
            var r := LogAndRoute(t1, log, task, target, body, Timing(input.startTs, input.endTs, input.duration));
            && CanMove(Written(t1, log, body), task, target)
            && Routed(cfg, t, r, n, target)
            && Lookup(r, log) == Some(File(LogText(cmd, input)))
  {
    var logs := cfg.logs.value;
    var task, target := FilePath(cfg.running, n), RcTarget(cfg, n, input.rc);
    var t1, log := MadeDir(t, logs), LogPath(logs, n);
    MadeDirKeepsEntries(t, logs);
    assert Ready(cfg, t1);
    MoveToTargetSucceeds(cfg, t1, n, target.dir);
    LoggedMove(t1, log, task, target, Header(cmd) + input.output + Footer(input.rc),
               Timing(input.startTs, input.endTs, input.duration));
  }

  // Guarded forms of the three lemmas above, for combining without case splits.

  lemma SkipRoutes(cfg: Config, t: Tree, n: Name, input: CycleInput)
    requires Layout(cfg) && Ready(cfg, t) && FileText(t, FilePath(cfg.running, n)).Some?
    ensures Cmd(cfg, t, n) == [] ==>
            var o := Process(cfg, t, n, input);
            o.step == Skipped(n, SkipTarget(cfg, n), true) && Routed(cfg, t, o.tree, n, SkipTarget(cfg, n))
  {
    if Cmd(cfg, t, n) == [] {
      ProcessSkips(cfg, t, n, input);
    }
  }

  lemma UnloggedRoutes(cfg: Config, t: Tree, n: Name, input: CycleInput)
    requires Layout(cfg) && Ready(cfg, t) && FileText(t, FilePath(cfg.running, n)).Some?
    ensures Cmd(cfg, t, n) != [] && cfg.logs.None? ==>
            var o := Process(cfg, t, n, input);
            && o.step == Ran(n, Cmd(cfg, t, n), input.rc, RcTarget(cfg, n, input.rc), true)
            && Routed(cfg, t, o.tree, n, RcTarget(cfg, n, input.rc))
  {
    if Cmd(cfg, t, n) != [] && cfg.logs.None? {
      ProcessRunsUnlogged(cfg, t, n, input);
    }
  }

  lemma LoggedRoutes(cfg: Config, t: Tree, n: Name, input: CycleInput)
    requires Layout(cfg) && Ready(cfg, t) && FileText(t, FilePath(cfg.running, n)).Some?
    ensures Cmd(cfg, t, n) != [] && cfg.logs.Some? && LogOpens(cfg, t, n) ==>
            var o := Process(cfg, t, n, input);
            && o.step == Ran(n, Cmd(cfg, t, n), input.rc, RcTarget(cfg, n, input.rc), true)
            && Routed(cfg, t, o.tree, n, RcTarget(cfg, n, input.rc))
            && Lookup(o.tree, LogPath(cfg.logs.value, n)) == Some(File(LogText(Cmd(cfg, t, n), input)))
  {
    if Cmd(cfg, t, n) != [] && cfg.logs.Some? && LogOpens(cfg, t, n) {
      ProcessRunsLogged(cfg, t, n, input);
    }
  }

  /**
   * Routing of a claimed task (t is the tree after the claim): an empty
   * command sends it to the failure directory without running anything; a
   * command that ran sends it to the finished directory on return code 0 and
   * to the failure directory otherwise; a log that cannot be opened ends the
   * worker with the task left in the running directory.
   */
  lemma ProcessRoutes(cfg: Config, t: Tree, n: Name, input: CycleInput)
    requires Layout(cfg) && Ready(cfg, t) && FileText(t, FilePath(cfg.running, n)).Some?
    ensures var o := Process(cfg, t, n, input);
            && (Cmd(cfg, t, n) == [] ==>
                  o.step == Skipped(n, SkipTarget(cfg, n), true) && Routed(cfg, t, o.tree, n, SkipTarget(cfg, n)))
            && (Cmd(cfg, t, n) != [] && LogOpens(cfg, t, n) ==>
                  o.step == Ran(n, Cmd(cfg, t, n), input.rc, RcTarget(cfg, n, input.rc), true)
                  && Routed(cfg, t, o.tree, n, RcTarget(cfg, n, input.rc)))
            && (Cmd(cfg, t, n) != [] && !LogOpens(cfg, t, n) ==>
                  o.step == Crashed(n) && Lookup(o.tree, FilePath(cfg.running, n)) == Lookup(t, FilePath(cfg.running, n)))
  {
    SkipRoutes(cfg, t, n, input);
    UnloggedRoutes(cfg, t, n, input);
    LoggedRoutes(cfg, t, n, input);
    CrashCase(cfg, t, n, input);
    if cfg.logs.Some? {
      MadeDirKeepsEntries(t, cfg.logs.value);
    }
  }

  /** The claim moves nothing that the target directories or the log depend on. */
  lemma ClaimKeepsTargets(cfg: Config, t: Tree, n: Name)
    requires Layout(cfg) && Ready(cfg, t) && ClaimedName(cfg, t) == Some(n)
    ensures var t1 := Moved(t, FilePath(cfg.pending, n), FilePath(cfg.running, n));
            && Ready(cfg, t1)
            && FileText(t1, FilePath(cfg.running, n)) == FileText(t, FilePath(cfg.pending, n))
            && (LogOpens(cfg, t1, n) <==> LogOpens(cfg, t, n))
  {
    var t1 := Moved(t, FilePath(cfg.pending, n), FilePath(cfg.running, n));
    assert t1[cfg.finished] == t[cfg.finished] && t1[FailureDir(cfg)] == t[FailureDir(cfg)];
    if cfg.logs.Some? {
      var logs := cfg.logs.value;
      if logs in t {
        assert t1[logs] == t[logs];
      }
    }
  }

  /**
   * One iteration that claims task n (routing, as the cycle sees it). The
   * command is the first non-blank line of the task file as it was in the
   * pending directory; the task file ends up, unchanged, in the directory its
   * outcome selects and nowhere else; a command run with a log directory
   * leaves the log header, output, footer and timing block in `<stem>.log`.
   */
  lemma CycleRoutes(cfg: Config, t: Tree, idleStart: int, input: CycleInput, n: Name)
    requires Layout(cfg) && Ready(cfg, t) && ClaimedName(cfg, t) == Some(n)
    ensures var o := CycleSpec(cfg, t, idleStart, input);
            var task := FilePath(cfg.pending, n);
            var cmd := ReadFirstNonemptyLine(FileText(t, task));
            && (cmd == [] ==> o.step == Skipped(n, SkipTarget(cfg, n), true))
            && (cmd != [] && LogOpens(cfg, t, n) ==> o.step == Ran(n, cmd, input.rc, RcTarget(cfg, n, input.rc), true))
            && (cmd != [] && !LogOpens(cfg, t, n) ==>
                  o.step == Crashed(n) && Lookup(o.tree, FilePath(cfg.running, n)) == Lookup(t, task))
            && (o.step.Skipped? || o.step.Ran? ==>
                  && Lookup(o.tree, o.step.target) == Lookup(t, task)
                  && Lookup(o.tree, task).None?
                  && Lookup(o.tree, FilePath(cfg.running, n)).None?)
            && (o.step.Ran? && cfg.logs.Some? ==>
                  Lookup(o.tree, LogPath(cfg.logs.value, n)) == Some(File(LogText(cmd, input))))
  {
    var task := FilePath(cfg.pending, n);
    var t1 := Moved(t, task, FilePath(cfg.running, n));
    var o := Process(cfg, t1, n, input);
    CycleIsProcess(cfg, t, idleStart, input, n);
    ClaimKeepsTargets(cfg, t, n);
    assert Cmd(cfg, t1, n) == ReadFirstNonemptyLine(FileText(t, task));
    assert Lookup(t1, FilePath(cfg.running, n)) == Lookup(t, task);
    ProcessRoutes(cfg, t1, n, input);
    LoggedRoutes(cfg, t1, n, input);
    PendingAfterProcess(cfg, t1, n, input);
    assert Lookup(o.tree, task) == Lookup(t1, task);
  }

  /** An iteration that claims n is the claim followed by `Process`. */
  lemma CycleIsProcess(cfg: Config, t: Tree, idleStart: int, input: CycleInput, n: Name)
    requires ClaimedName(cfg, t) == Some(n)
    ensures CycleSpec(cfg, t, idleStart, input) == Process(cfg, Moved(t, FilePath(cfg.pending, n), FilePath(cfg.running, n)), n, input)
  {
  }

  // ---------------------------------------------------------------------------
  // At most one claim per task over a run

  /** Every name in the pending directory of r was already there in t. */
  ghost predicate PendingWithin(cfg: Config, r: Tree, t: Tree) {
    forall m | Lookup(r, FilePath(cfg.pending, m)).Some? :: Lookup(t, FilePath(cfg.pending, m)).Some?
  }

  /** An iteration only removes names from the pending directory, and removes the one it claims. */
  lemma CyclePendingShrinks(cfg: Config, t: Tree, idleStart: int, input: CycleInput)
    requires Layout(cfg)
    ensures var o := CycleSpec(cfg, t, idleStart, input);
            && PendingWithin(cfg, o.tree, t)
            && (ClaimedName(cfg, t).Some? ==> Lookup(o.tree, FilePath(cfg.pending, ClaimedName(cfg, t).value)).None?)
  {
    match ClaimedName(cfg, t)
    case None =>
    case Some(n) =>
      var t1 := Moved(t, FilePath(cfg.pending, n), FilePath(cfg.running, n));
      var r := Process(cfg, t1, n, input).tree;
      CycleIsProcess(cfg, t, idleStart, input, n);
      PendingAfterProcess(cfg, t1, n, input);
      forall m | Lookup(r, FilePath(cfg.pending, m)).Some?
        ensures Lookup(t, FilePath(cfg.pending, m)).Some?
      {
        assert Lookup(t1, FilePath(cfg.pending, m)).Some?;
      }
  }

  /** `Process` leaves the pending directory as it found it. */
  lemma PendingAfterProcess(cfg: Config, t: Tree, n: Name, input: CycleInput)
    requires Layout(cfg)
    ensures forall m :: Lookup(Process(cfg, t, n, input).tree, FilePath(cfg.pending, m)) == Lookup(t, FilePath(cfg.pending, m))
  {
    ProcessTouches(cfg, t, n, input);
    var r := Process(cfg, t, n, input).tree;
    forall m ensures Lookup(r, FilePath(cfg.pending, m)) == Lookup(t, FilePath(cfg.pending, m)) {
      var p := FilePath(cfg.pending, m);
      assert !InLogs(cfg, p);
    }
  }

  /** The task an iteration reports was pending before it and is no longer pending after it. */
  lemma CycleClaim(cfg: Config, t: Tree, idleStart: int, input: CycleInput)
    requires Layout(cfg)
    ensures var o := CycleSpec(cfg, t, idleStart, input);
            && PendingWithin(cfg, o.tree, t)
            && (TaskOf(o.step).Some? ==>
                  && Lookup(t, FilePath(cfg.pending, TaskOf(o.step).value)).Some?
                  && Lookup(o.tree, FilePath(cfg.pending, TaskOf(o.step).value)).None?)
  {
    CycleIdleRule(cfg, t, idleStart, input);
    CyclePendingShrinks(cfg, t, idleStart, input);
  }

  /** Every task claimed in `steps` was in the pending directory of t. */
  ghost predicate ClaimedFromPending(cfg: Config, t: Tree, steps: seq<Step>) {
    forall k | 0 <= k < |steps| && TaskOf(steps[k]).Some? :: Lookup(t, FilePath(cfg.pending, TaskOf(steps[k]).value)).Some?
  }

  /** No task is claimed in two of the `steps`. */
  predicate ClaimedOnceEach(steps: seq<Step>) {
    forall i, j | 0 <= i < j < |steps| && TaskOf(steps[i]).Some? :: TaskOf(steps[j]) != TaskOf(steps[i])
  }

  /** A run is its first iteration followed, unless that one ends the worker, by the run from there. */
  lemma RunSpecStep(cfg: Config, t: Tree, idleStart: int, inputs: seq<CycleInput>)
    requires inputs != []
    ensures var o := CycleSpec(cfg, t, idleStart, inputs[0]);
            RunSpec(cfg, t, idleStart, inputs).steps ==
              if Ends(o.step) then [o.step] else [o.step] + RunSpec(cfg, o.tree, o.idleStart, inputs[1..]).steps
  {
  }

  /** Prepending a step whose task was pending in t to steps whose tasks were pending in a smaller tree. */
  lemma ClaimedFromPendingCons(cfg: Config, t: Tree, r: Tree, first: Step, rest: seq<Step>)
    requires ClaimedFromPending(cfg, r, rest) && PendingWithin(cfg, r, t)
    requires TaskOf(first).Some? ==> Lookup(t, FilePath(cfg.pending, TaskOf(first).value)).Some?
    ensures ClaimedFromPending(cfg, t, [first] + rest)
  {
    var steps := [first] + rest;
    forall k | 0 < k < |steps| && TaskOf(steps[k]).Some?
      ensures Lookup(t, FilePath(cfg.pending, TaskOf(steps[k]).value)).Some?
    {
      assert steps[k] == rest[k - 1];
    }
  }

  /** Prepending a step whose task is no longer pending in r to steps that only claim tasks pending in r. */
  lemma ClaimedOnceCons(cfg: Config, r: Tree, first: Step, rest: seq<Step>)
    requires ClaimedOnceEach(rest) && ClaimedFromPending(cfg, r, rest)
    requires TaskOf(first).Some? ==> Lookup(r, FilePath(cfg.pending, TaskOf(first).value)).None?
    ensures ClaimedOnceEach([first] + rest)
  {
    var steps := [first] + rest;
    forall i, j | 0 <= i < j < |steps| && TaskOf(steps[i]).Some?
      ensures TaskOf(steps[j]) != TaskOf(steps[i])
    {
      assert steps[j] == rest[j - 1];
      if i > 0 {
        assert steps[i] == rest[i - 1];
      }
    }
  }

  /** Over a whole run, every task the worker claims was in the pending directory at the start. */
  lemma {:induction false} RunClaimsPending(cfg: Config, t: Tree, idleStart: int, inputs: seq<CycleInput>)
    requires Layout(cfg)
    ensures ClaimedFromPending(cfg, t, RunSpec(cfg, t, idleStart, inputs).steps)
    decreases |inputs|
  {
    if inputs != [] {
      var o := CycleSpec(cfg, t, idleStart, inputs[0]);
      CycleClaim(cfg, t, idleStart, inputs[0]);
      RunSpecStep(cfg, t, idleStart, inputs);
      if Ends(o.step) {
        ClaimedFromPendingCons(cfg, t, t, o.step, []);
      } else {
        RunClaimsPending(cfg, o.tree, o.idleStart, inputs[1..]);
        ClaimedFromPendingCons(cfg, t, o.tree, o.step, RunSpec(cfg, o.tree, o.idleStart, inputs[1..]).steps);
      }
    }
  }

  /** Over a whole run, no task is claimed twice. */
  lemma {:induction false} RunClaimsOnce(cfg: Config, t: Tree, idleStart: int, inputs: seq<CycleInput>)
    requires Layout(cfg)
    ensures ClaimedOnceEach(RunSpec(cfg, t, idleStart, inputs).steps)
    decreases |inputs|
  {
    if inputs != [] {
      var o := CycleSpec(cfg, t, idleStart, inputs[0]);
      RunSpecStep(cfg, t, idleStart, inputs);
      if !Ends(o.step) {
        CycleClaim(cfg, t, idleStart, inputs[0]);
        RunClaimsOnce(cfg, o.tree, o.idleStart, inputs[1..]);
        RunClaimsPending(cfg, o.tree, o.idleStart, inputs[1..]);
        ClaimedOnceCons(cfg, o.tree, o.step, RunSpec(cfg, o.tree, o.idleStart, inputs[1..]).steps);
      }
    }
  }

  // ---------------------------------------------------------------------------
  // At most one claim per task across a pool of workers

  /** The pool's steps are the first turn's step, when that turn runs, followed by the steps of the rest. */
  lemma PoolSpecStep(cfg: Config, t: Tree, idle: map<nat, int>, ended: set<nat>, turns: seq<Turn>)
    requires turns != [] && turns[0].worker !in ended && turns[0].worker in idle
    ensures var w := turns[0].worker;
            var o := CycleSpec(cfg, t, idle[w], turns[0].input);
            var rest := PoolSpec(cfg, o.tree, idle[w := o.idleStart], if Ends(o.step) then ended + {w} else ended, turns[1..]);
            PoolSpec(cfg, t, idle, ended, turns).steps == [o.step] + rest.steps
  {
  }

  /** The pool after a turn of a live worker: that worker's iteration, then the rest with its state updated. */
  lemma {:induction false} PoolSpecUnfold(cfg: Config, t: Tree, idle: map<nat, int>, ended: set<nat>, turns: seq<Turn>)
    requires turns != [] && turns[0].worker !in ended && turns[0].worker in idle
    ensures var w := turns[0].worker;
            var o := CycleSpec(cfg, t, idle[w], turns[0].input);
            var rest := PoolSpec(cfg, o.tree, idle[w := o.idleStart], if Ends(o.step) then ended + {w} else ended, turns[1..]);
            PoolSpec(cfg, t, idle, ended, turns) == PoolResult([o.step] + rest.steps, rest.tree)
  {
  }

  /** Every task any worker of the pool claims was in the pending directory at the start. */
  lemma {:induction false} PoolClaimsPending(cfg: Config, t: Tree, idle: map<nat, int>, ended: set<nat>, turns: seq<Turn>)
    requires Layout(cfg)
    ensures ClaimedFromPending(cfg, t, PoolSpec(cfg, t, idle, ended, turns).steps)
    decreases |turns|
  {
    if turns != [] {
      var w := turns[0].worker;
      if w in ended || w !in idle {
        PoolClaimsPending(cfg, t, idle, ended, turns[1..]);
      } else {
        var o := CycleSpec(cfg, t, idle[w], turns[0].input);
        var idle', ended' := idle[w := o.idleStart], if Ends(o.step) then ended + {w} else ended;
        CycleClaim(cfg, t, idle[w], turns[0].input);
        PoolSpecStep(cfg, t, idle, ended, turns);
        PoolClaimsPending(cfg, o.tree, idle', ended', turns[1..]);
        ClaimedFromPendingCons(cfg, t, o.tree, o.step, PoolSpec(cfg, o.tree, idle', ended', turns[1..]).steps);
      }
    }
  }

  /**
   * No two iterations of the pool, of the same worker or of different ones,
   * claim the same task: once claimed, a name has left the pending directory,
   * and no iteration adds to it.
   */
  lemma {:induction false} PoolClaimsOnce(cfg: Config, t: Tree, idle: map<nat, int>, ended: set<nat>, turns: seq<Turn>)
    requires Layout(cfg)
    ensures ClaimedOnceEach(PoolSpec(cfg, t, idle, ended, turns).steps)
    decreases |turns|
  {
    if turns != [] {
      var w := turns[0].worker;
      if w in ended || w !in idle {
        PoolClaimsOnce(cfg, t, idle, ended, turns[1..]);
      } else {
        var o := CycleSpec(cfg, t, idle[w], turns[0].input);
        var idle', ended' := idle[w := o.idleStart], if Ends(o.step) then ended + {w} else ended;
        CycleClaim(cfg, t, idle[w], turns[0].input);
        PoolSpecStep(cfg, t, idle, ended, turns);
        PoolClaimsOnce(cfg, o.tree, idle', ended', turns[1..]);
        PoolClaimsPending(cfg, o.tree, idle', ended', turns[1..]);
        ClaimedOnceCons(cfg, o.tree, o.step, PoolSpec(cfg, o.tree, idle', ended', turns[1..]).steps);
      }
    }
  }

  /**
   * However the workers' iterations interleave, no task is lost or
   * duplicated: the names across the queue directories stay the same set,
   * each in at most one of them.
   */
  lemma {:induction false} PoolConserves(cfg: Config, t: Tree, idle: map<nat, int>, ended: set<nat>, turns: seq<Turn>)
    requires LogsApart(cfg)
    ensures NamesAcross(PoolSpec(cfg, t, idle, ended, turns).tree, QueueDirs(cfg)) == NamesAcross(t, QueueDirs(cfg))
    ensures UniqueIn(t, QueueDirs(cfg)) ==> UniqueIn(PoolSpec(cfg, t, idle, ended, turns).tree, QueueDirs(cfg))
    decreases |turns|
  {
    if turns != [] {
      var w := turns[0].worker;
      if w in ended || w !in idle {
        PoolConserves(cfg, t, idle, ended, turns[1..]);
      } else {
        var o := CycleSpec(cfg, t, idle[w], turns[0].input);
        CycleConserves(cfg, t, idle[w], turns[0].input);
        PoolSpecUnfold(cfg, t, idle, ended, turns);
        PoolConserves(cfg, o.tree, idle[w := o.idleStart], if Ends(o.step) then ended + {w} else ended, turns[1..]);
      }
    }
  }

  /** The turns of one worker w, with the given readings. */
  function TurnsOf(w: nat, inputs: seq<CycleInput>): (turns: seq<Turn>)
    ensures |turns| == |inputs|
    decreases |inputs|
  {
    if inputs == [] then [] else [Turn(w, inputs[0])] + TurnsOf(w, inputs[1..])
  }

  /** Turns of a worker that has ended do nothing. */
  lemma {:induction false} EndedTurns(cfg: Config, t: Tree, idle: map<nat, int>, ended: set<nat>, w: nat, inputs: seq<CycleInput>)
    requires w in ended
    ensures PoolSpec(cfg, t, idle, ended, TurnsOf(w, inputs)) == PoolResult([], t)
    decreases |inputs|
  {
    if inputs != [] {
      EndedTurns(cfg, t, idle, ended, w, inputs[1..]);
    }
  }

  /** The turns of a single live worker w do what w's own loop does. */
  lemma {:induction false} PoolOfOne(cfg: Config, t: Tree, idle: map<nat, int>, ended: set<nat>, w: nat, inputs: seq<CycleInput>)
    requires w in idle && w !in ended
    ensures var r := RunSpec(cfg, t, idle[w], inputs);
            PoolSpec(cfg, t, idle, ended, TurnsOf(w, inputs)) == PoolResult(r.steps, r.tree)
    decreases |inputs|
  {
    if inputs != [] {
      var turns := TurnsOf(w, inputs);
      assert turns[0] == Turn(w, inputs[0]) && turns[1..] == TurnsOf(w, inputs[1..]);
      PoolSpecUnfold(cfg, t, idle, ended, turns);
      var o := CycleSpec(cfg, t, idle[w], inputs[0]);
      if Ends(o.step) {
        EndedTurns(cfg, o.tree, idle[w := o.idleStart], ended + {w}, w, inputs[1..]);
      } else {
        PoolOfOne(cfg, o.tree, idle[w := o.idleStart], ended, w, inputs[1..]);
      }
    }
  }
}
