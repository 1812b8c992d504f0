/**
 * The task-file generator: the fixed seed table, the task name and the
 * command line of one parameter combination, `create_file`, and the nested
 * loops of the script that write one task file per combination into the
 * pending directory. The floating-point fragments of the command line are
 * opaque texts supplied with the script's parameters.
 */
module Generator {
  import opened Common
  import opened Text
  import opened FsModel
  import opened Queue

  /** The 64 simulator seeds of `get_seed`, in table order, in four rows of sixteen. */
  const SeedTable: seq<int> := SeedRow0 + SeedRow1 + SeedRow2 + SeedRow3

  const SeedRow0: seq<int> := [
    1973272912, 188312339, 1072664641, 694388766,
    2009044369, 934100682, 1972392646, 1936856304,
    1598189534, 1822174485, 1871883252, 558746720,
    605846893, 1384311643, 2081634991, 1644999263]

  const SeedRow1: seq<int> := [
    773370613, 358485174, 1996632795, 1000004583,
    1769370802, 1895218768, 186872697, 1859168769,
    349544396, 1996610406, 222735214, 1334983095,
    144443207, 720236707, 762772169, 437720306]

  const SeedRow2: seq<int> := [
    939612284, 425414105, 1998078925, 981631283,
    1024155645, 822780843, 701857417, 960703545,
    2101442385, 2125204119, 2041095833, 89865291,
    898723423, 1859531344, 764283187, 1349341884]

  const SeedRow3: seq<int> := [
    678622600, 778794064, 1319566104, 1277478588,
    538474442, 683102175, 999157082, 985046914,
    722594620, 1695858027, 1700738670, 1995749838,
    1147024708, 346983590, 565528207, 513791680]

  /** Every seed is a positive 31-bit value. */
  lemma SeedRowsBounded()
    ensures forall i | 0 <= i < 16 :: 0 < SeedRow0[i] < 0x8000_0000 && 0 < SeedRow1[i] < 0x8000_0000
    ensures forall i | 0 <= i < 16 :: 0 < SeedRow2[i] < 0x8000_0000 && 0 < SeedRow3[i] < 0x8000_0000
  {
  }

  /** No seed occurs twice in the first two rows. */
  lemma SeedRowsDistinctLow()
    ensures Distinct(SeedRow0) && Distinct(SeedRow1)
  {
  }

  /** No seed occurs twice in the last two rows. */
  lemma SeedRowsDistinctHigh()
    ensures Distinct(SeedRow2) && Distinct(SeedRow3)
  {
  }

  /** The first row shares no seed with the second and the third. */
  lemma SeedRowsApartFirst()
    ensures Apart(SeedRow0, SeedRow1) && Apart(SeedRow0, SeedRow2)
  {
  }

  /** The first row shares no seed with the last, nor the second with the third. */
  lemma SeedRowsApartMiddle()
    ensures Apart(SeedRow0, SeedRow3) && Apart(SeedRow1, SeedRow2)
  {
  }

  /** The second and the third row share no seed with the last. */
  lemma SeedRowsApartLast()
    ensures Apart(SeedRow1, SeedRow3) && Apart(SeedRow2, SeedRow3)
  {
  }

  /** Every seed is a positive 31-bit value, and no seed occurs twice in the table. */
  lemma SeedTableValues()
    ensures forall i | 0 <= i < |SeedTable| :: 0 < SeedTable[i] < 0x8000_0000
    ensures Distinct(SeedTable)
  {
    SeedRowsBounded();
    SeedRowsDistinctLow();
    SeedRowsDistinctHigh();
    SeedRowsApartFirst();
    SeedRowsApartMiddle();
    SeedRowsApartLast();
    DistinctRows(SeedRow0, SeedRow1, SeedRow2, SeedRow3);
    forall i | 0 <= i < |SeedTable| ensures 0 < SeedTable[i] < 0x8000_0000 {
      if i < 16 {
        assert SeedTable[i] == SeedRow0[i];
      } else if i < 32 {
        assert SeedTable[i] == SeedRow1[i - 16];
      } else if i < 48 {
        assert SeedTable[i] == SeedRow2[i - 32];
      } else {
        assert SeedTable[i] == SeedRow3[i - 48];
      }
    }
  }

  /**
   * `get_seed(i)`: entry i of the 64-entry table. Python list indexing also
   * accepts -64 <= i < 0, counting from the end; any other index raises
   * IndexError, modelled as None.
   */
  function GetSeed(i: int): (seed: Option<int>)
    ensures seed.Some? <==> -64 <= i < 64
    ensures 0 <= i < 64 ==> seed == Some(SeedTable[i])
    ensures -64 <= i < 0 ==> seed == Some(SeedTable[64 + i])
  {
    if 0 <= i < |SeedTable| then Some(SeedTable[i])
    else if -|SeedTable| <= i < 0 then Some(SeedTable[|SeedTable| + i])
    else None
  }

  /**
   * Every seed `get_seed` returns is a positive 31-bit value, and two indices
   * it accepts give the same seed exactly when they name the same entry
   * (i and i - 64 for 0 <= i < 64).
   */
  lemma GetSeedValues(i: int, j: int)
    ensures GetSeed(i).Some? ==> 0 < GetSeed(i).value < 0x8000_0000
    ensures GetSeed(i).Some? && GetSeed(j).Some? ==> (GetSeed(i) == GetSeed(j) <==> i % 64 == j % 64)
  {
    SeedTableValues();
    if GetSeed(i).Some? && GetSeed(j).Some? {
      PythonIndexDistinct(SeedTable, i, j);
    }
  }

  /**
   * In a 64-entry table without repeats, two Python indices (negative ones
   * counting from the end) pick the same entry exactly when they name the
   * same position.
   */
  lemma PythonIndexDistinct(s: seq<int>, i: int, j: int)
    requires |s| == 64 && Distinct(s) && -64 <= i < 64 && -64 <= j < 64
    ensures s[if i < 0 then 64 + i else i] == s[if j < 0 then 64 + j else j] <==> i % 64 == j % 64
  {
    var p, q := if i < 0 then 64 + i else i, if j < 0 then 64 + j else j;
    assert p == i % 64 && q == j % 64;
    if p < q {
      assert s[p] != s[q];
    } else if q < p {
      assert s[q] != s[p];
    }
  }

  // ---------------------------------------------------------------------------
  // One parameter combination

  /** The loop variables of one iteration of the innermost loop, with `epoch_rounds[epoch]`. */
  datatype Combo = Combo(alg: string, intra: string, epoch: int, rounds: int, load: int, seed: int)

  /** The components of a task name, in order: `str()` of each loop variable and of the epoch's rounds. */
  function NameFields(c: Combo): (fields: seq<string>)
    ensures |fields| == 6
  {
    [c.alg, c.intra, IntToDecimal(c.epoch), IntToDecimal(c.rounds), IntToDecimal(c.load), IntToDecimal(c.seed)]
  }

  /** The task name: alg, intra, epoch, rounds, load and seed joined by '_'. */
  function TaskName(c: Combo): string {
    Join(NameFields(c), '_')
  }

  /** An algorithm or scheduler name that can be a name component: no '_' in it. */
  predicate Identifier(s: string) {
    '_' !in s
  }

  /** Splitting a task name on '_' gives back its six components, in order. */
  lemma TaskNameFields(c: Combo)
    requires Identifier(c.alg) && Identifier(c.intra)
    ensures Split(TaskName(c), '_') == NameFields(c)
  {
    IntToDecimalChars(c.epoch);
    IntToDecimalChars(c.rounds);
    IntToDecimalChars(c.load);
    IntToDecimalChars(c.seed);
    SplitJoin(NameFields(c), '_');
  }

  /** Distinct combinations have distinct task names. */
  lemma TaskNameInjective(c: Combo, d: Combo)
    requires Identifier(c.alg) && Identifier(c.intra) && Identifier(d.alg) && Identifier(d.intra)
    requires TaskName(c) == TaskName(d)
    ensures c == d
  {
    TaskNameFields(c);
    TaskNameFields(d);
    assert NameFields(c) == NameFields(d);
    IntToDecimalInjective(c.epoch, d.epoch);
    IntToDecimalInjective(c.rounds, d.rounds);
    IntToDecimalInjective(c.load, d.load);
    IntToDecimalInjective(c.seed, d.seed);
  }

  /** A task name is one line, starts with the algorithm and ends with the digits of the seed. */
  lemma TaskNameShape(c: Combo)
    requires NoLineBreak(c.alg) && NoLineBreak(c.intra)
    ensures NoLineBreak(TaskName(c))
    ensures c.alg <= TaskName(c)
    ensures var n := TaskName(c); '0' <= n[|n| - 1] <= '9'
  {
    var fields := NameFields(c);
    IntToDecimalChars(c.epoch);
    IntToDecimalChars(c.rounds);
    IntToDecimalChars(c.load);
    IntToDecimalChars(c.seed);
    JoinNoLineBreak(fields, '_');
    JoinEndsWithLast(fields, '_');
    var n, last := TaskName(c), IntToDecimal(c.seed);
    assert n[|n| - 1] == last[|last| - 1];
  }

  // ---------------------------------------------------------------------------
  // The script's parameters

  /**
   * The parameters of the script. `epochRounds` is the `epoch_rounds`
   * dictionary as its items in insertion order; the seeds are
   * `range(numSeeds)`. `cycle`, `guardBand` and `finishTime` are the texts
   * `str()` gives for the script's float constants, and `onuLoad(load)` the
   * text of the ONU_LOAD value computed from a load.
   */
  datatype Script = Script(
    directory: Path,
    jar: string,
    algs: seq<string>,
    intras: seq<string>,
    epochRounds: seq<(int, int)>,
    loads: seq<int>,
    numSeeds: nat,
    cycle: string,
    guardBand: string,
    nOnus: int,
    opticalSpeed: int,
    finishTime: string,
    onuLoad: int -> string)

  function Seeds(s: Script): (seeds: seq<int>)
    ensures |seeds| == s.numSeeds
    ensures forall k | 0 <= k < |seeds| :: seeds[k] == k
  {
    seq(s.numSeeds, k => k)
  }

  /** The script as it stands: one algorithm, one intra-ONU scheduler, five epochs, seven loads, one seed. */
  function EponScript(onuLoad: int -> string): Script {
    Script(
      "/home/oscar/a_tasks/", "EPON-Sim.jar", ["IPACT"], ["STRICTPRIORITY"],
      [(1, 68), (2, 40), (3, 36), (4, 30), (5, 28)], [55, 60, 65, 70, 75, 80, 85], 1,
      "0.001", "6.24e-07", 64, 25000000000, "1000.0", onuLoad)
  }

  // ---------------------------------------------------------------------------
  // The command line

  /** One ` KEY value` pair of the command line. */
  datatype Flag = Flag(key: string, value: string)

  /** The pairs that name the scheduling scheme (TAX, GSP and GSF are fixed in the script). */
  function SchemeFlags(c: Combo): (flags: seq<Flag>)
    ensures |flags| == 5
  {
    [Flag("ALG", c.alg), Flag("TAX", "FirstFit"), Flag("GSP", "LIMITED"), Flag("GSF", "ONLINE"), Flag("INTRA", c.intra)]
  }

  /** The pairs that describe the network. */
  function NetworkFlags(s: Script, c: Combo): (flags: seq<Flag>)
    ensures |flags| == 6
  {
    [Flag("CYCLE", s.cycle), Flag("GUARD_BAND", s.guardBand), Flag("NUMBER_ONUS", IntToDecimal(s.nOnus)),
     Flag("ONU_LOAD", s.onuLoad(c.load)), Flag("OPTICAL_SPEED", IntToDecimal(s.opticalSpeed)),
     Flag("FINISH_TIME", s.finishTime)]
  }

  /** The pairs that identify the run. */
  function RunFlags(c: Combo): (flags: seq<Flag>)
    requires -64 <= c.seed < 64
    ensures |flags| == 4
    ensures flags[0] == Flag("SEED", IntToDecimal(GetSeed(c.seed).value))
    ensures flags[3] == Flag("FILENAME", TaskName(c))
  {
    [Flag("SEED", IntToDecimal(GetSeed(c.seed).value)), Flag("EPOCH", IntToDecimal(c.epoch)),
     Flag("N_ROUNDS", IntToDecimal(c.rounds)), Flag("FILENAME", TaskName(c))]
  }

  /** The pairs the script appends after `java -jar <jar>`, in order. */
  function Flags(s: Script, c: Combo): (flags: seq<Flag>)
    requires -64 <= c.seed < 64
    ensures |flags| == 15
    ensures flags[11] == Flag("SEED", IntToDecimal(GetSeed(c.seed).value))
    ensures flags[14] == Flag("FILENAME", TaskName(c))
  {
    var run := RunFlags(c);
    var flags := SchemeFlags(c) + NetworkFlags(s, c) + run;
    assert flags[11] == run[0] && flags[14] == run[3];
    flags
  }

  /** The text of one pair: a space, the key, a space, the value. */
  function FlagText(f: Flag): string {
    " " + f.key + " " + f.value
  }

  /** The pairs one after the other. */
  function FlagsText(flags: seq<Flag>): string
    decreases |flags|
  {
    if flags == [] then "" else FlagsText(flags[..|flags| - 1]) + FlagText(flags[|flags| - 1])
  }

  /** The command line of combination c. */
  function Command(s: Script, c: Combo): string
    requires -64 <= c.seed < 64
  {
    "java -jar " + s.jar + FlagsText(Flags(s, c))
  }

  /** Each pair's text occurs in the text of the pairs. */
  lemma {:induction false} FlagsTextContains(flags: seq<Flag>, i: nat)
    requires i < |flags|
    ensures Contains(FlagsText(flags), FlagText(flags[i]))
    decreases |flags|
  {
    var init, last := flags[..|flags| - 1], flags[|flags| - 1];
    var before := FlagsText(init);
    var text := before + FlagText(last);
    if i == |flags| - 1 {
      assert FlagText(flags[i]) <= text[|before|..];
    } else {
      assert flags[i] == init[i];
      FlagsTextContains(init, i);
      var j :| 0 <= j <= |before| && FlagText(flags[i]) <= before[j..];
      assert before[j..] <= text[j..];
    }
  }

  /** A pair whose key and value are single lines. */
  predicate OneLineFlag(f: Flag) {
    NoLineBreak(f.key) && NoLineBreak(f.value)
  }

  /** Pairs whose keys and values are single lines give a single line. */
  lemma {:induction false} FlagsTextNoLineBreak(flags: seq<Flag>)
    requires forall k | 0 <= k < |flags| :: OneLineFlag(flags[k])
    ensures NoLineBreak(FlagsText(flags))
    decreases |flags|
  {
    if flags != [] {
      var init, last := flags[..|flags| - 1], flags[|flags| - 1];
      FlagsTextNoLineBreak(init);
      assert NoLineBreak(" ");
      NoLineBreakAppend(" ", last.key);
      NoLineBreakAppend(" " + last.key, " ");
      NoLineBreakAppend(" " + last.key + " ", last.value);
      NoLineBreakAppend(FlagsText(init), FlagText(last));
    }
  }

  /** The fragments taken from the parameters hold no line boundary. */
  predicate SingleLine(s: Script, c: Combo) {
    && NoLineBreak(s.jar) && NoLineBreak(c.alg) && NoLineBreak(c.intra)
    && NoLineBreak(s.cycle) && NoLineBreak(s.guardBand) && NoLineBreak(s.finishTime)
    && NoLineBreak(s.onuLoad(c.load))
  }

  /** The text after a head: the head starts it, each pair occurs in it, and it ends with the last pair. */
  lemma HeadAndFlags(head: string, flags: seq<Flag>, i: nat)
    requires i < |flags|
    ensures head <= head + FlagsText(flags)
    ensures Contains(head + FlagsText(flags), FlagText(flags[i]))
    ensures var text, last := head + FlagsText(flags), FlagText(flags[|flags| - 1]);
            |last| <= |text| && text[|text| - |last|..] == last
  {
    var text := FlagsText(flags);
    FlagsTextContains(flags, i);
    var j :| 0 <= j <= |text| && FlagText(flags[i]) <= text[j..];
    assert text[j..] == (head + text)[|head| + j..];
    assert head + text == (head + FlagsText(flags[..|flags| - 1])) + FlagText(flags[|flags| - 1]);
  }

  /**
   * The command line starts with `java -jar <jar>`, passes the table seed of
   * the combination after SEED, and ends with `FILENAME <task name>`.
   */
  lemma CommandShape(s: Script, c: Combo)
    requires -64 <= c.seed < 64
    ensures "java -jar " + s.jar <= Command(s, c)
    ensures Contains(Command(s, c), FlagText(Flag("SEED", IntToDecimal(GetSeed(c.seed).value))))
    ensures var tail, cmd := FlagText(Flag("FILENAME", TaskName(c))), Command(s, c);
            |tail| <= |cmd| && cmd[|cmd| - |tail|..] == tail
  {
    HeadAndFlags("java -jar " + s.jar, Flags(s, c), 11);
  }

  /** Every key and value of the command line is a single line. */
  lemma FlagsOneLine(s: Script, c: Combo)
    requires -64 <= c.seed < 64 && SingleLine(s, c)
    ensures forall k | 0 <= k < |Flags(s, c)| :: OneLineFlag(Flags(s, c)[k])
  {
    var a, b, r := SchemeFlags(c), NetworkFlags(s, c), RunFlags(c);
    KeysOneLine();
    assert forall k | 0 <= k < |a| :: OneLineFlag(a[k]);
    DecimalOneLine(s.nOnus);
    DecimalOneLine(s.opticalSpeed);
    assert forall k | 0 <= k < |b| :: OneLineFlag(b[k]);
    RunFlagsOneLine(c);
    var flags := Flags(s, c);
    assert flags == a + b + r;
    forall k | 0 <= k < |flags| ensures OneLineFlag(flags[k]) {
      if k < 5 { assert flags[k] == a[k]; }
      else if k < 11 { assert flags[k] == b[k - 5]; }
      else { assert flags[k] == r[k - 11]; }
    }
  }

  lemma RunFlagsOneLine(c: Combo)
    requires -64 <= c.seed < 64 && NoLineBreak(c.alg) && NoLineBreak(c.intra)
    ensures forall k | 0 <= k < |RunFlags(c)| :: OneLineFlag(RunFlags(c)[k])
  {
    KeysOneLine();
    DecimalOneLine(GetSeed(c.seed).value);
    DecimalOneLine(c.epoch);
    DecimalOneLine(c.rounds);
    TaskNameShape(c);
  }

  /**
   * The command line is a single line with no surrounding whitespace, so
   * that the runner's command extraction reads it back unchanged.
   */
  lemma CommandIsOneLine(s: Script, c: Combo)
    requires -64 <= c.seed < 64 && SingleLine(s, c)
    ensures NoLineBreak(Command(s, c)) && NoSurroundingSpace(Command(s, c))
  {
    var flags := Flags(s, c);
    FlagsOneLine(s, c);
    FlagsTextNoLineBreak(flags);
    var head := "java -jar " + s.jar;
    KeysOneLine();
    NoLineBreakAppend("java -jar ", s.jar);
    NoLineBreakAppend(head, FlagsText(flags));
    var cmd := Command(s, c);
    CommandShape(s, c);
    TaskNameShape(c);
    var name := TaskName(c);
    assert cmd[|cmd| - 1] == name[|name| - 1];
  }

  /** The keys and the fixed values are single lines. */
  lemma KeysOneLine()
    ensures NoLineBreak("java -jar ")
    ensures NoLineBreak("ALG") && NoLineBreak("TAX") && NoLineBreak("FirstFit") && NoLineBreak("GSP")
    ensures NoLineBreak("LIMITED") && NoLineBreak("GSF") && NoLineBreak("ONLINE") && NoLineBreak("INTRA")
    ensures NoLineBreak("CYCLE") && NoLineBreak("GUARD_BAND") && NoLineBreak("NUMBER_ONUS")
    ensures NoLineBreak("ONU_LOAD") && NoLineBreak("OPTICAL_SPEED") && NoLineBreak("FINISH_TIME")
    ensures NoLineBreak("SEED") && NoLineBreak("EPOCH") && NoLineBreak("N_ROUNDS") && NoLineBreak("FILENAME")
  {
    Printable("java -jar ");
    Printable("ALG");
    Printable("TAX");
    Printable("FirstFit");
    Printable("GSP");
    Printable("LIMITED");
    Printable("GSF");
    Printable("ONLINE");
    Printable("INTRA");
    Printable("CYCLE");
    Printable("GUARD_BAND");
    Printable("NUMBER_ONUS");
    Printable("ONU_LOAD");
    Printable("OPTICAL_SPEED");
    Printable("FINISH_TIME");
    Printable("SEED");
    Printable("EPOCH");
    Printable("N_ROUNDS");
    Printable("FILENAME");
  }

  /** `str(i)` is a single line. */
  lemma DecimalOneLine(i: int)
    ensures NoLineBreak(IntToDecimal(i))
  {
    IntToDecimalChars(i);
  }

  /** Printable ASCII text is a single line. */
  lemma Printable(s: string)
    requires forall k | 0 <= k < |s| :: ' ' <= s[k] <= '~'
    ensures NoLineBreak(s)
  {
  }

  // ---------------------------------------------------------------------------
  // create_file

  /** The file `create_file(directory, name, _)` writes: `<name>.txt` in `directory`. */
  function TaskFilePath(directory: Path, name: string): FilePath {
    FilePath(directory, name + ".txt")
  }

  /** Different names give different task files. */
  lemma TaskFileInjective(directory: Path, a: string, b: string)
    ensures TaskFilePath(directory, a) == TaskFilePath(directory, b) ==> a == b
  {
    assert a == (a + ".txt")[..|a|] && b == (b + ".txt")[..|b|];
  }

  /**
   * `create_file(directory, name, value)`: remove any existing file at the
   * path, then open it for appending and write `value` (the extra argument to
   * `format` is ignored, so no newline follows). False when the script would
   * raise: the directory is missing, or the path names a directory.
   */
  method CreateFile(fs: FileSystem, directory: Path, name: string, value: string) returns (ok: bool)
    modifies fs
    ensures ok == CanOpen(old(fs.dirs), TaskFilePath(directory, name))
    ensures ok ==> fs.dirs == Written(old(fs.dirs), TaskFilePath(directory, name), value)
    ensures !ok ==> fs.dirs == old(fs.dirs)
  {
    var p := TaskFilePath(directory, name);
    var present := fs.Exists(p);
    if present {
      var removed := fs.RemoveFile(p);
      if !removed {
        return false;
      }
      RemoveThenAppend(old(fs.dirs), p, value);
    }
    ok := fs.AppendFile(p, value);
  }

  // ---------------------------------------------------------------------------
  // The nested loops, level by level (outermost first)

  /** The combinations of the seed loop for fixed alg, intra, epoch and load. */
  function SeedLevel(alg: string, intra: string, epoch: (int, int), load: int, seeds: seq<int>): (cs: seq<Combo>)
    ensures |cs| == |seeds|
    ensures forall k | 0 <= k < |seeds| :: cs[k] == Combo(alg, intra, epoch.0, epoch.1, load, seeds[k])
  {
    seq(|seeds|, k requires 0 <= k < |seeds| => Combo(alg, intra, epoch.0, epoch.1, load, seeds[k]))
  }

  /** The combinations of the load loop and the loops inside it. */
  function LoadLevel(alg: string, intra: string, epoch: (int, int), loads: seq<int>, seeds: seq<int>): seq<Combo>
    decreases |loads|
  {
    if loads == [] then []
    else LoadLevel(alg, intra, epoch, loads[..|loads| - 1], seeds) + SeedLevel(alg, intra, epoch, loads[|loads| - 1], seeds)
  }

  /** The combinations of the epoch loop and the loops inside it. */
  function EpochLevel(alg: string, intra: string, epochs: seq<(int, int)>, loads: seq<int>, seeds: seq<int>): seq<Combo>
    decreases |epochs|
  {
    if epochs == [] then []
    else EpochLevel(alg, intra, epochs[..|epochs| - 1], loads, seeds) + LoadLevel(alg, intra, epochs[|epochs| - 1], loads, seeds)
  }

  /** The combinations of the intra loop and the loops inside it. */
  function IntraLevel(alg: string, intras: seq<string>, epochs: seq<(int, int)>, loads: seq<int>, seeds: seq<int>): seq<Combo>
    decreases |intras|
  {
    if intras == [] then []
    else IntraLevel(alg, intras[..|intras| - 1], epochs, loads, seeds) + EpochLevel(alg, intras[|intras| - 1], epochs, loads, seeds)
  }

  /** The combinations of the alg loop and the loops inside it. */
  function AlgLevel(algs: seq<string>, intras: seq<string>, epochs: seq<(int, int)>, loads: seq<int>, seeds: seq<int>): seq<Combo>
    decreases |algs|
  {
    if algs == [] then []
    else AlgLevel(algs[..|algs| - 1], intras, epochs, loads, seeds) + IntraLevel(algs[|algs| - 1], intras, epochs, loads, seeds)
  }

  /** Every combination the script visits, in the order it visits them. */
  function Combos(s: Script): seq<Combo> {
    AlgLevel(s.algs, s.intras, s.epochRounds, s.loads, Seeds(s))
  }

  // ---------------------------------------------------------------------------
  // What the loops visit

  /** No element occurs twice. */
  predicate Distinct<T(==)>(xs: seq<T>) {
    forall i, j | 0 <= i < j < |xs| :: xs[i] != xs[j]
  }

  /** Dropping the last element keeps a sequence distinct, and the last element is not among the rest. */
  lemma DistinctInit<T>(xs: seq<T>)
    requires xs != [] && Distinct(xs)
    ensures Distinct(xs[..|xs| - 1]) && xs[|xs| - 1] !in xs[..|xs| - 1]
  {
    var init := xs[..|xs| - 1];
    forall i, j | 0 <= i < j < |init| ensures init[i] != init[j] {
      assert init[i] == xs[i] && init[j] == xs[j];
    }
  }

  /** No element of `a` occurs in `b`. */
  predicate Apart<T(==)>(a: seq<T>, b: seq<T>) {
    forall i, j | 0 <= i < |a| && 0 <= j < |b| :: a[i] != b[j]
  }

  /** Four distinct sequences, pairwise apart, concatenate to a distinct sequence. */
  lemma DistinctRows<T>(a: seq<T>, b: seq<T>, c: seq<T>, d: seq<T>)
    requires Distinct(a) && Distinct(b) && Distinct(c) && Distinct(d)
    requires Apart(a, b) && Apart(a, c) && Apart(a, d) && Apart(b, c) && Apart(b, d) && Apart(c, d)
    ensures Distinct(a + b + c + d)
  {
    DistinctConcat(a, b);
    assert Apart(a + b, c) by {
      forall i, j | 0 <= i < |a + b| && 0 <= j < |c| ensures (a + b)[i] != c[j] {
        if i >= |a| { assert (a + b)[i] == b[i - |a|]; }
      }
    }
    DistinctConcat(a + b, c);
    assert Apart(a + b + c, d) by {
      forall i, j | 0 <= i < |a + b + c| && 0 <= j < |d| ensures (a + b + c)[i] != d[j] {
        if |a| <= i < |a + b| { assert (a + b + c)[i] == b[i - |a|]; }
        else if i >= |a + b| { assert (a + b + c)[i] == c[i - |a + b|]; }
      }
    }
    DistinctConcat(a + b + c, d);
  }

  /** Two distinct sequences with no common element concatenate to a distinct sequence. */
  lemma DistinctConcat<T>(a: seq<T>, b: seq<T>)
    requires Distinct(a) && Distinct(b)
    requires forall x | x in a :: x !in b
    ensures Distinct(a + b)
  {
    var ab := a + b;
    forall i, j | 0 <= i < j < |ab| ensures ab[i] != ab[j] {
      if j < |a| {
        assert ab[i] == a[i] && ab[j] == a[j];
      } else if i >= |a| {
        assert ab[i] == b[i - |a|] && ab[j] == b[j - |a|];
      } else {
        assert ab[i] == a[i] && a[i] in a && ab[j] == b[j - |a|];
      }
    }
  }

  /** The seed loop visits each seed once, with the other loop variables fixed. */
  lemma SeedLevelGrid(alg: string, intra: string, epoch: (int, int), load: int, seeds: seq<int>)
    ensures forall c: Combo :: c in SeedLevel(alg, intra, epoch, load, seeds) <==>
      c.alg == alg && c.intra == intra && (c.epoch, c.rounds) == epoch && c.load == load && c.seed in seeds
    ensures Distinct(seeds) ==> Distinct(SeedLevel(alg, intra, epoch, load, seeds))
  {
    var cs := SeedLevel(alg, intra, epoch, load, seeds);
    forall c: Combo | c.alg == alg && c.intra == intra && (c.epoch, c.rounds) == epoch && c.load == load && c.seed in seeds
      ensures c in cs
    {
      var k :| 0 <= k < |seeds| && seeds[k] == c.seed;
      assert cs[k] == c;
    }
    if Distinct(seeds) {
      forall i, j | 0 <= i < j < |cs| ensures cs[i] != cs[j] {
        assert cs[i].seed == seeds[i] && cs[j].seed == seeds[j];
      }
    }
  }

  /** One more row of m elements: (n + 1) * m == n * m + m. */
  lemma MulStep(n: nat, m: nat)
    ensures (n + 1) * m == n * m + m
  {
  }

  /** The load loop visits |loads| * |seeds| combinations. */
  lemma {:induction false} LoadLevelCount(alg: string, intra: string, epoch: (int, int), loads: seq<int>, seeds: seq<int>)
    ensures |LoadLevel(alg, intra, epoch, loads, seeds)| == |loads| * |seeds|
    decreases |loads|
  {
    if loads != [] {
      var init := loads[..|loads| - 1];
      LoadLevelCount(alg, intra, epoch, init, seeds);
      MulStep(|init|, |seeds|);
    }
  }

  /** The load loop visits exactly the combinations with one of the loads and one of the seeds. */
  lemma {:induction false} LoadLevelMembers(alg: string, intra: string, epoch: (int, int), loads: seq<int>, seeds: seq<int>)
    ensures forall c: Combo :: c in LoadLevel(alg, intra, epoch, loads, seeds) <==>
      c.alg == alg && c.intra == intra && (c.epoch, c.rounds) == epoch && c.load in loads && c.seed in seeds
    decreases |loads|
  {
    if loads != [] {
      var init, load := loads[..|loads| - 1], loads[|loads| - 1];
      assert loads == init + [load];
      LoadLevelMembers(alg, intra, epoch, init, seeds);
      SeedLevelGrid(alg, intra, epoch, load, seeds);
    }
  }

  /** With distinct loads and seeds, the load loop visits no combination twice. */
  lemma {:induction false} LoadLevelDistinct(alg: string, intra: string, epoch: (int, int), loads: seq<int>, seeds: seq<int>)
    requires Distinct(loads) && Distinct(seeds)
    ensures Distinct(LoadLevel(alg, intra, epoch, loads, seeds))
    decreases |loads|
  {
    if loads != [] {
      var init, load := loads[..|loads| - 1], loads[|loads| - 1];
      DistinctInit(loads);
      LoadLevelDistinct(alg, intra, epoch, init, seeds);
      LoadLevelMembers(alg, intra, epoch, init, seeds);
      SeedLevelGrid(alg, intra, epoch, load, seeds);
      DistinctConcat(LoadLevel(alg, intra, epoch, init, seeds), SeedLevel(alg, intra, epoch, load, seeds));
    }
  }

  /** The epoch loop visits |epochs| * |loads| * |seeds| combinations. */
  lemma {:induction false} EpochLevelCount(alg: string, intra: string, epochs: seq<(int, int)>, loads: seq<int>, seeds: seq<int>)
    ensures |EpochLevel(alg, intra, epochs, loads, seeds)| == |epochs| * (|loads| * |seeds|)
    decreases |epochs|
  {
    if epochs != [] {
      var init, epoch := epochs[..|epochs| - 1], epochs[|epochs| - 1];
      EpochLevelCount(alg, intra, init, loads, seeds);
      LoadLevelCount(alg, intra, epoch, loads, seeds);
      MulStep(|init|, |loads| * |seeds|);
    }
  }

  /** The epoch loop visits exactly the combinations with one of the epochs, loads and seeds. */
  lemma {:induction false} EpochLevelMembers(alg: string, intra: string, epochs: seq<(int, int)>, loads: seq<int>, seeds: seq<int>)
    ensures forall c: Combo :: c in EpochLevel(alg, intra, epochs, loads, seeds) <==>
      c.alg == alg && c.intra == intra && (c.epoch, c.rounds) in epochs && c.load in loads && c.seed in seeds
    decreases |epochs|
  {
    if epochs != [] {
      var init, epoch := epochs[..|epochs| - 1], epochs[|epochs| - 1];
      assert epochs == init + [epoch];
      EpochLevelMembers(alg, intra, init, loads, seeds);
      LoadLevelMembers(alg, intra, epoch, loads, seeds);
    }
  }

  /** With distinct epochs, loads and seeds, the epoch loop visits no combination twice. */
  lemma {:induction false} EpochLevelDistinct(alg: string, intra: string, epochs: seq<(int, int)>, loads: seq<int>, seeds: seq<int>)
    requires Distinct(epochs) && Distinct(loads) && Distinct(seeds)
    ensures Distinct(EpochLevel(alg, intra, epochs, loads, seeds))
    decreases |epochs|
  {
    if epochs != [] {
      var init, epoch := epochs[..|epochs| - 1], epochs[|epochs| - 1];
      DistinctInit(epochs);
      EpochLevelDistinct(alg, intra, init, loads, seeds);
      EpochLevelMembers(alg, intra, init, loads, seeds);
      LoadLevelDistinct(alg, intra, epoch, loads, seeds);
      LoadLevelMembers(alg, intra, epoch, loads, seeds);
      DistinctConcat(EpochLevel(alg, intra, init, loads, seeds), LoadLevel(alg, intra, epoch, loads, seeds));
    }
  }

  /** The intra loop visits |intras| * |epochs| * |loads| * |seeds| combinations. */
  lemma {:induction false} IntraLevelCount(alg: string, intras: seq<string>, epochs: seq<(int, int)>, loads: seq<int>, seeds: seq<int>)
    ensures |IntraLevel(alg, intras, epochs, loads, seeds)| == |intras| * (|epochs| * (|loads| * |seeds|))
    decreases |intras|
  {
    if intras != [] {
      var init, intra := intras[..|intras| - 1], intras[|intras| - 1];
      IntraLevelCount(alg, init, epochs, loads, seeds);
      EpochLevelCount(alg, intra, epochs, loads, seeds);
      MulStep(|init|, |epochs| * (|loads| * |seeds|));
    }
  }

  /** The intra loop visits exactly the combinations with one of the intras, epochs, loads and seeds. */
  lemma {:induction false} IntraLevelMembers(alg: string, intras: seq<string>, epochs: seq<(int, int)>, loads: seq<int>, seeds: seq<int>)
    ensures forall c: Combo :: c in IntraLevel(alg, intras, epochs, loads, seeds) <==>
      c.alg == alg && c.intra in intras && (c.epoch, c.rounds) in epochs && c.load in loads && c.seed in seeds
    decreases |intras|
  {
    if intras != [] {
      var init, intra := intras[..|intras| - 1], intras[|intras| - 1];
      assert intras == init + [intra];
      IntraLevelMembers(alg, init, epochs, loads, seeds);
      EpochLevelMembers(alg, intra, epochs, loads, seeds);
    }
  }

  /** With distinct intras, epochs, loads and seeds, the intra loop visits no combination twice. */
  lemma {:induction false} IntraLevelDistinct(alg: string, intras: seq<string>, epochs: seq<(int, int)>, loads: seq<int>, seeds: seq<int>)
    requires Distinct(intras) && Distinct(epochs) && Distinct(loads) && Distinct(seeds)
    ensures Distinct(IntraLevel(alg, intras, epochs, loads, seeds))
    decreases |intras|
  {
    if intras != [] {
      var init, intra := intras[..|intras| - 1], intras[|intras| - 1];
      DistinctInit(intras);
      IntraLevelDistinct(alg, init, epochs, loads, seeds);
      IntraLevelMembers(alg, init, epochs, loads, seeds);
      EpochLevelDistinct(alg, intra, epochs, loads, seeds);
      EpochLevelMembers(alg, intra, epochs, loads, seeds);
      DistinctConcat(IntraLevel(alg, init, epochs, loads, seeds), EpochLevel(alg, intra, epochs, loads, seeds));
    }
  }

  /** The alg loop visits |algs| * |intras| * |epochs| * |loads| * |seeds| combinations. */
  lemma {:induction false} AlgLevelCount(algs: seq<string>, intras: seq<string>, epochs: seq<(int, int)>, loads: seq<int>, seeds: seq<int>)
    ensures |AlgLevel(algs, intras, epochs, loads, seeds)| == |algs| * (|intras| * (|epochs| * (|loads| * |seeds|)))
    decreases |algs|
  {
    if algs != [] {
      var init, alg := algs[..|algs| - 1], algs[|algs| - 1];
      AlgLevelCount(init, intras, epochs, loads, seeds);
      IntraLevelCount(alg, intras, epochs, loads, seeds);
      MulStep(|init|, |intras| * (|epochs| * (|loads| * |seeds|)));
    }
  }

  /** The alg loop visits exactly the combinations with one of the algs, intras, epochs, loads and seeds. */
  lemma {:induction false} AlgLevelMembers(algs: seq<string>, intras: seq<string>, epochs: seq<(int, int)>, loads: seq<int>, seeds: seq<int>)
    ensures forall c: Combo :: c in AlgLevel(algs, intras, epochs, loads, seeds) <==>
      c.alg in algs && c.intra in intras && (c.epoch, c.rounds) in epochs && c.load in loads && c.seed in seeds
    decreases |algs|
  {
    if algs != [] {
      var init, alg := algs[..|algs| - 1], algs[|algs| - 1];
      assert algs == init + [alg];
      AlgLevelMembers(init, intras, epochs, loads, seeds);
      IntraLevelMembers(alg, intras, epochs, loads, seeds);
    }
  }

  /** With distinct values in every list, the alg loop visits no combination twice. */
  lemma {:induction false} AlgLevelDistinct(algs: seq<string>, intras: seq<string>, epochs: seq<(int, int)>, loads: seq<int>, seeds: seq<int>)
    requires Distinct(algs) && Distinct(intras) && Distinct(epochs) && Distinct(loads) && Distinct(seeds)
    ensures Distinct(AlgLevel(algs, intras, epochs, loads, seeds))
    decreases |algs|
  {
    if algs != [] {
      var init, alg := algs[..|algs| - 1], algs[|algs| - 1];
      DistinctInit(algs);
      AlgLevelDistinct(init, intras, epochs, loads, seeds);
      AlgLevelMembers(init, intras, epochs, loads, seeds);
      IntraLevelDistinct(alg, intras, epochs, loads, seeds);
      IntraLevelMembers(alg, intras, epochs, loads, seeds);
      DistinctConcat(AlgLevel(init, intras, epochs, loads, seeds), IntraLevel(alg, intras, epochs, loads, seeds));
    }
  }

  /** The script visits one combination per algorithm, scheduler, epoch, load and seed. */
  lemma CombosCount(s: Script)
    ensures |Combos(s)| == |s.algs| * (|s.intras| * (|s.epochRounds| * (|s.loads| * s.numSeeds)))
  {
    AlgLevelCount(s.algs, s.intras, s.epochRounds, s.loads, Seeds(s));
  }

  /** A combination is visited exactly when each of its values comes from the script's lists. */
  lemma CombosMembers(s: Script, c: Combo)
    ensures c in Combos(s) <==>
      c.alg in s.algs && c.intra in s.intras && (c.epoch, c.rounds) in s.epochRounds && c.load in s.loads &&
      0 <= c.seed < s.numSeeds
  {
    AlgLevelMembers(s.algs, s.intras, s.epochRounds, s.loads, Seeds(s));
    if 0 <= c.seed < s.numSeeds {
      assert Seeds(s)[c.seed] == c.seed;
    }
  }

  /** No two visited combinations share a task name (hence a task file). */
  predicate DistinctNames(cs: seq<Combo>) {
    forall i, j | 0 <= i < j < |cs| :: TaskName(cs[i]) != TaskName(cs[j])
  }

  /** The script's lists have no repeats and its names no '_'. */
  predicate WellFormed(s: Script) {
    Distinct(s.algs) && Distinct(s.intras) && Distinct(s.epochRounds) && Distinct(s.loads) &&
    (forall a | a in s.algs :: Identifier(a)) && (forall a | a in s.intras :: Identifier(a))
  }

  /** In a well-formed script every combination gets its own task name. */
  lemma CombosNamesDistinct(s: Script)
    requires WellFormed(s)
    ensures DistinctNames(Combos(s))
  {
    var cs := Combos(s);
    AlgLevelDistinct(s.algs, s.intras, s.epochRounds, s.loads, Seeds(s));
    AlgLevelMembers(s.algs, s.intras, s.epochRounds, s.loads, Seeds(s));
    forall i, j | 0 <= i < j < |cs| ensures TaskName(cs[i]) != TaskName(cs[j]) {
      assert cs[i] in cs && cs[j] in cs;
      if TaskName(cs[i]) == TaskName(cs[j]) {
        TaskNameInjective(cs[i], cs[j]);
      }
    }
  }

  /** The script as it stands visits 35 combinations. */
  lemma EponScriptCount(onuLoad: int -> string)
    ensures |Combos(EponScript(onuLoad))| == 35
  {
    CombosCount(EponScript(onuLoad));
  }

  /** The script as it stands gives its 35 combinations 35 different task names. */
  lemma EponScriptNames(onuLoad: int -> string)
    ensures DistinctNames(Combos(EponScript(onuLoad)))
  {
    var s := EponScript(onuLoad);
    assert Identifier("IPACT") && Identifier("STRICTPRIORITY");
    assert WellFormed(s);
    CombosNamesDistinct(s);
  }

  // ---------------------------------------------------------------------------
  // The files the loops write

  /** The script can write the file of c: the seed index is within the table and `open` succeeds. */
  predicate Writable(t: Tree, s: Script, c: Combo) {
    -64 <= c.seed < 64 && CanOpen(t, TaskFilePath(s.directory, TaskName(c)))
  }

  predicate AllWritable(t: Tree, s: Script, cs: seq<Combo>) {
    forall c | c in cs :: Writable(t, s, c)
  }

  /** The writes `create_file` performs for cs: each combination's task file with its command line. */
  function TaskWrites(s: Script, cs: seq<Combo>): (ws: seq<(FilePath, string)>)
    requires forall c | c in cs :: -64 <= c.seed < 64
    ensures |ws| == |cs|
    ensures forall k | 0 <= k < |cs| :: ws[k] == (TaskFilePath(s.directory, TaskName(cs[k])), Command(s, cs[k]))
  {
    seq(|cs|, k requires 0 <= k < |cs| => (TaskFilePath(s.directory, TaskName(cs[k])), Command(s, cs[k])))
  }

  lemma TaskWritesConcat(s: Script, a: seq<Combo>, b: seq<Combo>)
    requires forall c | c in a + b :: -64 <= c.seed < 64
    ensures TaskWrites(s, a + b) == TaskWrites(s, a) + TaskWrites(s, b)
  {
    var ab := a + b;
    forall k | 0 <= k < |ab| ensures TaskWrites(s, ab)[k] == (TaskWrites(s, a) + TaskWrites(s, b))[k] {
      if k < |a| {
        assert ab[k] == a[k];
      } else {
        assert ab[k] == b[k - |a|];
      }
    }
  }

  lemma WritableOpen(t: Tree, s: Script, cs: seq<Combo>)
    requires AllWritable(t, s, cs)
    ensures AllOpen(t, TaskWrites(s, cs))
  {
    forall k | 0 <= k < |cs| ensures CanOpen(t, TaskWrites(s, cs)[k].0) {
      assert cs[k] in cs;
    }
  }

  /** The tree after `create_file` for each combination of cs in turn. */
  function Generated(t: Tree, s: Script, cs: seq<Combo>): Tree
    requires AllWritable(t, s, cs)
  {
    WritableOpen(t, s, cs);
    WrittenAll(t, TaskWrites(s, cs))
  }

  /** Writing a, then b, is writing a + b; after a, b is writable exactly when it was before. */
  lemma GeneratedThen(t: Tree, s: Script, a: seq<Combo>, b: seq<Combo>)
    requires AllWritable(t, s, a)
    ensures AllWritable(Generated(t, s, a), s, b) == AllWritable(t, s, b)
    ensures AllWritable(t, s, a + b) == AllWritable(t, s, b)
    ensures AllWritable(t, s, b) ==> Generated(t, s, a + b) == Generated(Generated(t, s, a), s, b)
  {
    var r := Generated(t, s, a);
    assert forall c :: Writable(r, s, c) == Writable(t, s, c);
    if AllWritable(t, s, b) {
      WritableOpen(t, s, a);
      WritableOpen(t, s, b);
      TaskWritesConcat(s, a, b);
      WrittenAllThen(t, TaskWrites(s, a), TaskWrites(s, b));
    }
  }

  /** Writing one combination is one `create_file`. */
  lemma GeneratedOne(t: Tree, s: Script, c: Combo)
    requires Writable(t, s, c)
    ensures Generated(t, s, [c]) == Written(t, TaskFilePath(s.directory, TaskName(c)), Command(s, c))
  {
    var ws := TaskWrites(s, [c]);
    assert ws[0] == (TaskFilePath(s.directory, TaskName(c)), Command(s, c));
    assert ws[..0] == [];
    WritableOpen(t, s, [c]);
    assert WrittenAll(t, ws[..0]) == t;
  }

  /**
   * One step of a loop over cs: after the first k writes, the next one can be
   * written exactly when it could at the start, and if not, the whole run fails.
   */
  lemma GeneratedNext(t: Tree, s: Script, cs: seq<Combo>, k: nat)
    requires k < |cs| && AllWritable(t, s, cs[..k])
    ensures Writable(Generated(t, s, cs[..k]), s, cs[k]) == Writable(t, s, cs[k])
    ensures !Writable(t, s, cs[k]) ==> !AllWritable(t, s, cs)
  {
    assert cs[k] in cs;
    GeneratedThen(t, s, cs[..k], [cs[k]]);
  }

  /** A step that can be written makes the run one `create_file` longer. */
  lemma GeneratedStep(t: Tree, s: Script, cs: seq<Combo>, k: nat)
    requires k < |cs| && AllWritable(t, s, cs[..k]) && Writable(t, s, cs[k])
    ensures AllWritable(t, s, cs[..k + 1])
    ensures Generated(t, s, cs[..k + 1]) ==
      Written(Generated(t, s, cs[..k]), TaskFilePath(s.directory, TaskName(cs[k])), Command(s, cs[k]))
  {
    var c, done := cs[k], cs[..k];
    assert cs[..k + 1] == done + [c];
    assert AllWritable(t, s, [c]);
    GeneratedThen(t, s, done, [c]);
    GeneratedStepTree(t, s, done, c);
  }

  lemma GeneratedStepTree(t: Tree, s: Script, done: seq<Combo>, c: Combo)
    requires AllWritable(t, s, done) && Writable(t, s, c) && AllWritable(t, s, done + [c])
    requires Generated(t, s, done + [c]) == Generated(Generated(t, s, done), s, [c])
    ensures Generated(t, s, done + [c]) ==
      Written(Generated(t, s, done), TaskFilePath(s.directory, TaskName(c)), Command(s, c))
  {
    var before := Generated(t, s, done);
    assert Writable(before, s, c);
    GeneratedOne(before, s, c);
  }

  /** A combination that cannot be written stops a larger run too. */
  lemma NotAllWritable(t: Tree, s: Script, part: seq<Combo>, whole: seq<Combo>)
    requires !AllWritable(t, s, part)
    requires forall c | c in part :: c in whole
    ensures !AllWritable(t, s, whole)
  {
    var c :| c in part && !Writable(t, s, c);
    assert c in whole;
  }

  /** With distinct names, the file of each written combination holds its command line. */
  lemma GeneratedFile(t: Tree, s: Script, cs: seq<Combo>, c: Combo)
    requires AllWritable(t, s, cs) && DistinctNames(cs) && c in cs
    ensures FileText(Generated(t, s, cs), TaskFilePath(s.directory, TaskName(c))) == Some(Command(s, c))
  {
    var ws := TaskWrites(s, cs);
    var k :| 0 <= k < |cs| && cs[k] == c;
    assert DistinctPaths(ws) by {
      forall i, j | 0 <= i < j < |ws| ensures ws[i].0 != ws[j].0 {
        TaskFileInjective(s.directory, TaskName(cs[i]), TaskName(cs[j]));
      }
    }
    WritableOpen(t, s, cs);
    WrittenAllFile(t, ws, k);
  }

  /** Writing the combinations changes no path other than their task files. */
  lemma GeneratedElsewhere(t: Tree, s: Script, cs: seq<Combo>, p: FilePath)
    requires AllWritable(t, s, cs)
    requires forall c | c in cs :: TaskFilePath(s.directory, TaskName(c)) != p
    ensures Lookup(Generated(t, s, cs), p) == Lookup(t, p)
  {
    var ws := TaskWrites(s, cs);
    forall k | 0 <= k < |ws| ensures ws[k].0 != p {
      assert cs[k] in cs;
    }
    WritableOpen(t, s, cs);
    WrittenAllElsewhere(t, ws, p);
  }

  /**
   * Every combination of a script can be written when the seed count fits the
   * table and the directory exists holding regular files only.
   */
  lemma ReadyToWrite(t: Tree, s: Script)
    requires s.numSeeds <= 64 && s.directory in t
    requires forall n | n in t[s.directory] :: t[s.directory][n].File?
    ensures AllWritable(t, s, Combos(s))
  {
    forall c | c in Combos(s) ensures Writable(t, s, c) {
      CombosMembers(s, c);
    }
  }

  // ---------------------------------------------------------------------------
  // The loops

  /**
   * The seed loop: for each seed, build the name and the command line (where
   * `get_seed` raises IndexError past the table) and `create_file` it. False
   * when the script would raise; then it stops.
   */
  method WriteSeeds(fs: FileSystem, s: Script, alg: string, intra: string, epoch: (int, int), load: int) returns (ok: bool)
    modifies fs
    ensures ok == AllWritable(old(fs.dirs), s, SeedLevel(alg, intra, epoch, load, Seeds(s)))
    ensures ok ==> fs.dirs == Generated(old(fs.dirs), s, SeedLevel(alg, intra, epoch, load, Seeds(s)))
  {
    var seeds := Seeds(s);
    ghost var t := fs.dirs;
    ghost var cs := SeedLevel(alg, intra, epoch, load, seeds);
    for k := 0 to |seeds|
      invariant AllWritable(t, s, cs[..k]) && fs.dirs == Generated(t, s, cs[..k])
    {
      var c := Combo(alg, intra, epoch.0, epoch.1, load, seeds[k]);
      assert c == cs[k];
      GeneratedNext(t, s, cs, k);
      var name := TaskName(c);
      if GetSeed(c.seed).None? {
        return false;
      }
      var command := Command(s, c);
      ok := CreateFile(fs, s.directory, name, command);
      if !ok {
        return;
      }
      GeneratedStep(t, s, cs, k);
    }
    assert cs[..|seeds|] == cs;
    ok := true;
  }

  /** The load loop: the seed loop for each load in turn, stopping at the first failure. */
  method WriteLoads(fs: FileSystem, s: Script, alg: string, intra: string, epoch: (int, int)) returns (ok: bool)
    modifies fs
    ensures ok == AllWritable(old(fs.dirs), s, LoadLevel(alg, intra, epoch, s.loads, Seeds(s)))
    ensures ok ==> fs.dirs == Generated(old(fs.dirs), s, LoadLevel(alg, intra, epoch, s.loads, Seeds(s)))
  {
    ghost var t := fs.dirs;
    for k := 0 to |s.loads|
      invariant AllWritable(t, s, LoadLevel(alg, intra, epoch, s.loads[..k], Seeds(s)))
      invariant fs.dirs == Generated(t, s, LoadLevel(alg, intra, epoch, s.loads[..k], Seeds(s)))
    {
      ghost var done := LoadLevel(alg, intra, epoch, s.loads[..k], Seeds(s));
      ghost var block := SeedLevel(alg, intra, epoch, s.loads[k], Seeds(s));
      assert s.loads[..k + 1][..k] == s.loads[..k];
      assert LoadLevel(alg, intra, epoch, s.loads[..k + 1], Seeds(s)) == done + block;
      GeneratedThen(t, s, done, block);
      ok := WriteSeeds(fs, s, alg, intra, epoch, s.loads[k]);
      if !ok {
        LoadLevelMembers(alg, intra, epoch, s.loads, Seeds(s));
        SeedLevelGrid(alg, intra, epoch, s.loads[k], Seeds(s));
        NotAllWritable(t, s, block, LoadLevel(alg, intra, epoch, s.loads, Seeds(s)));
        return;
      }
    }
    assert s.loads[..|s.loads|] == s.loads;
    ok := true;
  }

  /** The epoch loop: the load loop for each (epoch, rounds) item in turn, stopping at the first failure. */
  method WriteEpochs(fs: FileSystem, s: Script, alg: string, intra: string) returns (ok: bool)
    modifies fs
    ensures ok == AllWritable(old(fs.dirs), s, EpochLevel(alg, intra, s.epochRounds, s.loads, Seeds(s)))
    ensures ok ==> fs.dirs == Generated(old(fs.dirs), s, EpochLevel(alg, intra, s.epochRounds, s.loads, Seeds(s)))
  {
    ghost var t := fs.dirs;
    for k := 0 to |s.epochRounds|
      invariant AllWritable(t, s, EpochLevel(alg, intra, s.epochRounds[..k], s.loads, Seeds(s)))
      invariant fs.dirs == Generated(t, s, EpochLevel(alg, intra, s.epochRounds[..k], s.loads, Seeds(s)))
    {
      ghost var done := EpochLevel(alg, intra, s.epochRounds[..k], s.loads, Seeds(s));
      ghost var block := LoadLevel(alg, intra, s.epochRounds[k], s.loads, Seeds(s));
      assert s.epochRounds[..k + 1][..k] == s.epochRounds[..k];
      assert EpochLevel(alg, intra, s.epochRounds[..k + 1], s.loads, Seeds(s)) == done + block;
      GeneratedThen(t, s, done, block);
      ok := WriteLoads(fs, s, alg, intra, s.epochRounds[k]);
      if !ok {
        EpochLevelMembers(alg, intra, s.epochRounds, s.loads, Seeds(s));
        LoadLevelMembers(alg, intra, s.epochRounds[k], s.loads, Seeds(s));
        NotAllWritable(t, s, block, EpochLevel(alg, intra, s.epochRounds, s.loads, Seeds(s)));
        return;
      }
    }
    assert s.epochRounds[..|s.epochRounds|] == s.epochRounds;
    ok := true;
  }

  /** The intra loop: the epoch loop for each intra-ONU scheduler in turn, stopping at the first failure. */
  method WriteIntras(fs: FileSystem, s: Script, alg: string) returns (ok: bool)
    modifies fs
    ensures ok == AllWritable(old(fs.dirs), s, IntraLevel(alg, s.intras, s.epochRounds, s.loads, Seeds(s)))
    ensures ok ==> fs.dirs == Generated(old(fs.dirs), s, IntraLevel(alg, s.intras, s.epochRounds, s.loads, Seeds(s)))
  {
    ghost var t := fs.dirs;
    for k := 0 to |s.intras|
      invariant AllWritable(t, s, IntraLevel(alg, s.intras[..k], s.epochRounds, s.loads, Seeds(s)))
      invariant fs.dirs == Generated(t, s, IntraLevel(alg, s.intras[..k], s.epochRounds, s.loads, Seeds(s)))
    {
      ghost var done := IntraLevel(alg, s.intras[..k], s.epochRounds, s.loads, Seeds(s));
      ghost var block := EpochLevel(alg, s.intras[k], s.epochRounds, s.loads, Seeds(s));
      assert s.intras[..k + 1][..k] == s.intras[..k];
      assert IntraLevel(alg, s.intras[..k + 1], s.epochRounds, s.loads, Seeds(s)) == done + block;
      GeneratedThen(t, s, done, block);
      ok := WriteEpochs(fs, s, alg, s.intras[k]);
      if !ok {
        IntraLevelMembers(alg, s.intras, s.epochRounds, s.loads, Seeds(s));
        EpochLevelMembers(alg, s.intras[k], s.epochRounds, s.loads, Seeds(s));
        NotAllWritable(t, s, block, IntraLevel(alg, s.intras, s.epochRounds, s.loads, Seeds(s)));
        return;
      }
    }
    assert s.intras[..|s.intras|] == s.intras;
    ok := true;
  }

  /**
   * The script's main loop: the intra loop for each algorithm in turn. True
   * when the script runs to the end, having written the task file of every
   * combination in order; false when it would raise, which happens exactly
   * when some combination cannot be written.
   */
  method Generate(fs: FileSystem, s: Script) returns (ok: bool)
    modifies fs
    ensures ok == AllWritable(old(fs.dirs), s, Combos(s))
    ensures ok ==> fs.dirs == Generated(old(fs.dirs), s, Combos(s))
  {
    ghost var t := fs.dirs;
    for k := 0 to |s.algs|
      invariant AllWritable(t, s, AlgLevel(s.algs[..k], s.intras, s.epochRounds, s.loads, Seeds(s)))
      invariant fs.dirs == Generated(t, s, AlgLevel(s.algs[..k], s.intras, s.epochRounds, s.loads, Seeds(s)))
    {
      ghost var done := AlgLevel(s.algs[..k], s.intras, s.epochRounds, s.loads, Seeds(s));
      ghost var block := IntraLevel(s.algs[k], s.intras, s.epochRounds, s.loads, Seeds(s));
      assert s.algs[..k + 1][..k] == s.algs[..k];
      assert AlgLevel(s.algs[..k + 1], s.intras, s.epochRounds, s.loads, Seeds(s)) == done + block;
      GeneratedThen(t, s, done, block);
      ok := WriteIntras(fs, s, s.algs[k]);
      if !ok {
        AlgLevelMembers(s.algs, s.intras, s.epochRounds, s.loads, Seeds(s));
        IntraLevelMembers(s.algs[k], s.intras, s.epochRounds, s.loads, Seeds(s));
        NotAllWritable(t, s, block, Combos(s));
        return;
      }
    }
    assert s.algs[..|s.algs|] == s.algs;
    ok := true;
  }
}
