/**
 * The generator feeds the runner: the task files the generator writes into
 * the pending directory are the ones the runner claims. A task file holds a
 * single-line command, so the runner's command extraction gives back exactly
 * the command the generator built, and the log of the task is named after the
 * task name.
 */
module Handoff {
  import opened Common
  import opened Text
  import opened TaskFile
  import opened FsModel
  import opened Generator
  import opened Runner
  import opened RunnerProperties

  /** After the generator's run, the runner reads from the task file of c exactly the command line of c. */
  lemma GeneratedCommandReadBack(t: Tree, s: Script, c: Combo)
    requires WellFormed(s) && AllWritable(t, s, Combos(s)) && c in Combos(s) && SingleLine(s, c)
    ensures ReadFirstNonemptyLine(FileText(Generated(t, s, Combos(s)), TaskFilePath(s.directory, TaskName(c))))
            == Command(s, c)
  {
    CombosNamesDistinct(s);
    GeneratedFile(t, s, Combos(s), c);
    CommandIsOneLine(s, c);
    CommandReadBack(Command(s, c));
  }

  /** The log of the task file `<name>.txt` is `<name>.log` in the log directory. */
  lemma TaskLogName(logs: Path, c: Combo)
    ensures LogPath(logs, TaskName(c) + ".txt") == FilePath(logs, TaskName(c) + ".log")
  {
    var name := TaskName(c);
    assert name == NameFields(c)[0] + ['_'] + Join(NameFields(c)[1..], '_');
    assert name + ".txt" == name + "." + "txt";
    StemOfSuffixed(name, "txt");
  }

  /**
   * End to end: when the runner, watching the generator's directory as its
   * pending directory, claims the task file of c, it runs the command line of
   * c, moves the task to the directory its return code selects, and (with a
   * log directory) leaves the header, output, footer and timing block in
   * `<task name>.log`.
   */
  lemma GeneratedTaskRuns(cfg: Config, t: Tree, s: Script, c: Combo, idleStart: int, input: CycleInput)
    requires Layout(cfg) && cfg.pending == s.directory
    requires WellFormed(s) && AllWritable(t, s, Combos(s)) && c in Combos(s) && SingleLine(s, c)
    requires var g := Generated(t, s, Combos(s));
             var n := TaskName(c) + ".txt";
             Ready(cfg, g) && ClaimedName(cfg, g) == Some(n) && LogOpens(cfg, g, n)
    ensures var g := Generated(t, s, Combos(s));
            var n := TaskName(c) + ".txt";
            var o := CycleSpec(cfg, g, idleStart, input);
            && o.step == Ran(n, Command(s, c), input.rc, RcTarget(cfg, n, input.rc), true)
            && Lookup(o.tree, o.step.target) == Some(File(Command(s, c)))
            && (cfg.logs.Some? ==>
                  Lookup(o.tree, FilePath(cfg.logs.value, TaskName(c) + ".log")) == Some(File(LogText(Command(s, c), input))))
  {
    var g := Generated(t, s, Combos(s));
    var n := TaskName(c) + ".txt";
    GeneratedCommandReadBack(t, s, c);
    CombosNamesDistinct(s);
    GeneratedFile(t, s, Combos(s), c);
    CycleRoutes(cfg, g, idleStart, input, n);
    if cfg.logs.Some? {
      TaskLogName(cfg.logs.value, c);
    }
  }
}
