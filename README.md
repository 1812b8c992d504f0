# Directory-queue runner and task generator, in Dafny

This project models a directory-backed task queue and the script that fills it.

- **`runner.py`** runs workers over four directories: pending, running, finished and an optional failed one.
  - A task is a text file whose first non-blank line is a shell command.
  - A worker claims a task by renaming its file from pending into running.
  - It runs the command and moves the file to finished (return code 0) or failed (otherwise; finished when no failed directory is configured).
  - It can keep a per-task log: `CMD:` header, child output, `RETURN_CODE:` footer, then an appended timing block.
  - A worker stops at the first poll that finds nothing once `idle_timeout` seconds have passed since it started or last claimed a task. The time a task runs counts towards that.
- **`commandGenerator.py`** writes one task file per parameter combination into the pending directory.
  - Its nested loops cover algorithm, intra-ONU scheduler, epoch, load and seed.
  - The file is named after the `_`-joined combination and holds a `java -jar EPON-Sim.jar …` command line.

The filesystem is abstract: a map from directory path to the entries of that directory (`FsModel.Tree`). The filesystem is a `class` (`Queue.FileSystem`) whose methods update that map in place; the worker (`Runner.Worker`) is a class over it. Each loop iteration and each loop is proved against a pure function (`Runner.CycleSpec`, `Runner.RunSpec`, `Generator.Generated`), and the lemmas in `RunnerProperties`, `Generator` and `Handoff` state what the system promises about those functions.

Files:

- `common.dfy`: `Option`.
- `text.dfy`: Python's `str.isspace`, `strip()`, `splitlines()`, `str(int)` and `str.split`/`join` with one separator.
- `taskfile.dfy`: `read_first_nonempty_line`.
- `fsmodel.dfy`: directories and entries; `rename`, write, append, remove and `mkdir`; sorted listing of regular files; `Path.stem`.
- `queue.dfy`: the `FileSystem` class with `atomic_move` and `claim_one_task`.
- `runner.dfy`: one iteration of `worker_loop` and the loop, as a function and as methods of the `Worker` class.
- `runner_props.dfy`: routing, conservation, idle rule, at-most-once claim, log layout.
- `generator.dfy`: `get_seed`, task name, command line, `create_file`, the nested loops.
- `handoff.dfy`: what the generator writes is what the runner reads and logs.

## Model

| member | source | states |
|---|---|---|
| Text.Strip | runner.py:65 | the stripped line has no leading or trailing whitespace, and it is empty exactly when the line is all whitespace |
| Text.StripRecovers | runner.py:65 | stripping whitespace around a text without surrounding whitespace gives that text back |
| Text.StripIsInfix | runner.py:65 | the result of `strip()` is a slice of the line with only whitespace before and after it |
| Text.StripIdempotent | runner.py:65 | stripping twice is stripping once |
| Text.StripNoLineBreak | runner.py:65 | stripping a line keeps it free of line breaks |
| Text.SplitLines | runner.py:64 | no line that `splitlines()` returns contains a line break, and the text has lines exactly when it is not empty |
| Text.SplitLinesKeepsText | runner.py:64 | the lines concatenated are the text with its line-break characters removed: `splitlines()` loses nothing but breaks |
| Text.SplitLinesCut | runner.py:64 | a line ends at the first boundary and the next line starts right after it, with `\r\n` taken as one boundary |
| Text.SplitLinesSingle | runner.py:64 | a non-empty text without line breaks is a single line |
| Text.DecimalRoundTrip | commandGenerator.py:93-96 | reading back the decimal digits that `str()` gives for a natural number yields that number |
| Text.IntToDecimal | commandGenerator.py:93-96 | `str()` of an integer is non-empty, starts with `-` exactly when the number is negative, and has no line break or surrounding space |
| Text.IntToDecimalInjective | commandGenerator.py:93-96 | different integers have different decimal texts |
| Text.SplitJoin | commandGenerator.py:90-96 | splitting at `_` the `_`-join of fields that contain no `_` gives back the fields |
| Text.JoinNoLineBreak | commandGenerator.py:90-96 | joining line-break-free fields with a non-break separator has no line break |
| TaskFile.ReadFirstNonemptyLine | runner.py:63-70 | the command is empty when the read fails, and otherwise empty exactly when every line is blank; it has no surrounding whitespace and no line break |
| TaskFile.FirstNonblank | runner.py:64-67 | a non-empty result is the stripped form of a line whose earlier lines all strip to nothing |
| TaskFile.BlankTextHasNoCommand | runner.py:64-70 | a file of whitespace alone yields no command |
| TaskFile.BlankTextLines | runner.py:64-66 | every line of an all-whitespace text is blank |
| TaskFile.CommandReadBack | runner.py:63-67 | a file holding one line without surrounding whitespace yields exactly that line |
| FsModel.Moved | runner.py:84-98 | after a rename the target holds the source's entry, the source name is gone, and no other entry or directory changes |
| FsModel.RenameError | runner.py:84-98 | a rename fails exactly when it cannot be carried out, with FileNotFoundError exactly when the source or the target directory is missing |
| FsModel.MovedSelf | runner.py:86 | renaming a path onto itself changes nothing |
| FsModel.MovedKeepsNames | runner.py:119-122 | a rename under the same name between queue directories keeps the set of task names across them |
| FsModel.MovedKeepsUnique | runner.py:119-122 | such a rename keeps every name in at most one of those directories |
| FsModel.Written | runner.py:158-160 | opening with mode "w" and writing leaves exactly the text in the file and changes nothing else |
| FsModel.Appended | runner.py:133-136 | appending adds the text after the existing content, or creates the file with it, and changes nothing else |
| FsModel.Removed | commandGenerator.py:29-30 | removing a file makes its path empty and changes nothing else |
| FsModel.RemoveThenAppend | commandGenerator.py:29-33 | removing a file and then appending to the fresh path is the same as writing the path |
| FsModel.WrittenAllThen | commandGenerator.py:84-120 | writing one batch of files and then another is the same as writing both batches in order |
| FsModel.WrittenAllFile | commandGenerator.py:120 | after writes to distinct paths, each path holds exactly the text written to it |
| FsModel.WrittenAllElsewhere | commandGenerator.py:120 | writes leave every other path as it was |
| FsModel.MadeDir | runner.py:222-227 | `mkdir(exist_ok=True)` adds the directory when it is missing and leaves existing directories unchanged |
| FsModel.Listing | runner.py:115-117 | the listing is missing exactly when the directory is, and otherwise holds each regular file of the directory exactly once, in strictly ascending code-point order |
| FsModel.SortedNames | runner.py:115 | sorting a set of names gives each exactly once, strictly ascending |
| FsModel.BeforeTotal | runner.py:115 | two different names are always ordered one way or the other |
| FsModel.BeforeTransitive | runner.py:115 | the name order is transitive |
| FsModel.Stem | runner.py:264 | the stem is the name cut before its last dot when that dot is neither first nor last, and the whole name otherwise (`job`, `.bashrc`, `a.`) |
| FsModel.StemOfSuffixed | runner.py:264 | the stem of `base.ext`, with `ext` free of dots, is `base` |
| Queue.FirstClaimable | runner.py:119-124 | the claimed position is the first candidate whose rename succeeds; every earlier candidate fails |
| Queue.VanishedNotClaimable | runner.py:88-90 | a candidate another worker has already taken is skipped |
| Queue.ClaimedOnce | runner.py:76-80 | once a name has been claimed, no later listing can claim it again |
| Queue.FreshClaimTakesLeast | runner.py:115-122 | with no contention, the claim takes the least regular file name in pending |
| Queue.FileSystem.AtomicMove | runner.py:84-98 | returns true exactly when the rename can happen; then the tree is the renamed tree, otherwise it is unchanged |
| Queue.FileSystem.TryClaim | runner.py:119-124 | tries a possibly stale snapshot in order and moves the first claimable candidate into running under its name, or returns None and changes nothing |
| Queue.FileSystem.ClaimOneTask | runner.py:112-124 | returns None and changes nothing when pending is missing; otherwise claims as TryClaim does over the sorted regular-file listing |
| Queue.FileSystem.ReadText | runner.py:64 | yields the file's text, or nothing when the path is not a regular file |
| Queue.FileSystem.WriteFile | runner.py:158-160 | opening with mode "w" succeeds exactly when the path can be opened, and then writes the text |
| Queue.FileSystem.AppendFile | runner.py:133-136 | opening with mode "a" succeeds exactly when the path can be opened, and then appends the text |
| Queue.FileSystem.RemoveFile | commandGenerator.py:30 | removal succeeds exactly for a regular file, and then only that file is gone |
| Queue.FileSystem.Exists | commandGenerator.py:29 | true exactly when something is at the path |
| Queue.FileSystem.MakeDir | runner.py:222-227 | creates the directory if it is missing |
| Runner.ClaimedName | runner.py:234 | a claimed name is a regular file in pending |
| Runner.Worker.constructor | runner.py:222-230 | creates running, finished, and failed and logs when configured, and starts the idle clock |
| Runner.Worker.Cycle | runner.py:232-291 | one loop iteration changes the tree, the idle start and the result exactly as the pure `CycleSpec` does |
| Runner.Worker.Run | runner.py:232-299 | the loop's steps and final state are those of the iterations in turn, up to the first that ends the worker |
| RunnerProperties.CycleIdleRule | runner.py:234-245 | the worker stops exactly when nothing was claimed, the timeout is positive and the idle time has reached it; an idle iteration changes nothing; a claim resets the idle clock |
| RunnerProperties.NoTimeoutNeverStops | runner.py:238 | with an idle timeout of 0 or less, no iteration stops the worker |
| RunnerProperties.IdleWorkerStops | runner.py:237-242 | with nothing to claim, the worker waits until the first reading whose idle time reaches the timeout, and then stops with the tree unchanged |
| RunnerProperties.ProcessCases | runner.py:245-291 | a claimed iteration reports its task, resets the idle clock, and, among the failures the model covers, dies exactly when there is a command and its log cannot be opened |
| RunnerProperties.ProcessRoutes | runner.py:252-291 | an empty command moves the task to the failure directory without running; a command moves the task by return code; a log that cannot be opened leaves the task in running |
| RunnerProperties.ProcessSkips | runner.py:255-260 | an empty command is routed to failed, or to finished when no failed directory is configured |
| RunnerProperties.ProcessRunsUnlogged | runner.py:280-287 | without a log directory, return code 0 routes to finished and any other to the failure directory |
| RunnerProperties.ProcessRunsLogged | runner.py:158-160 | with a log directory, the log holds header, output, footer and timing in that order, and the task is routed by return code |
| RunnerProperties.LoggedMove | runner.py:287-291 | writing the log, moving the task and appending timing leave the log as body then timing, the task moved, and every other path unchanged |
| RunnerProperties.LogAndRouteTouches | runner.py:287-291 | logging and routing touch only the log, the task and its target |
| RunnerProperties.ProcessTouches | runner.py:245-291 | an iteration changes nothing outside running, finished, failed and logs |
| RunnerProperties.ProcessConserves | runner.py:252-287 | processing a task keeps the set of task names across the queue directories, and keeps each in at most one |
| RunnerProperties.CycleConserves | runner.py:232-287 | a whole iteration keeps the task names across the queue directories, and keeps each in at most one |
| RunnerProperties.RunConserves | runner.py:232-299 | any number of iterations keep the task names across the queue directories |
| RunnerProperties.ClaimKeepsTargets | runner.py:119-122 | after a claim, the task's text is in running and the target directories are still there |
| RunnerProperties.CycleRoutes | runner.py:232-291 | a claimed task ends in the target its command and return code select, with the pending and running copies gone, and with its log text when logging |
| RunnerProperties.CycleIsProcess | runner.py:234-252 | an iteration that claims a name processes it from the running directory |
| RunnerProperties.PendingAfterProcess | runner.py:252-291 | processing a claimed task does not touch pending |
| RunnerProperties.CyclePendingShrinks | runner.py:119-122 | an iteration never adds to pending and takes the claimed name out of it |
| RunnerProperties.CycleClaim | runner.py:119-122 | the task an iteration reports was in pending before and is not after |
| RunnerProperties.RunSpecStep | runner.py:232-242 | the loop's steps are the first iteration's step followed by the rest, unless it ended the worker |
| RunnerProperties.RunClaimsPending | runner.py:119-122 | every task a worker reports over a run was in pending at the start |
| RunnerProperties.RunClaimsOnce | runner.py:76-80 | no task is reported twice by a worker over a run |
| RunnerProperties.PoolClaimsPending | runner.py:119-122 | over any interleaving of several workers' iterations on one filesystem, every task claimed was in pending at the start |
| RunnerProperties.PoolClaimsOnce | runner.py:76-80 | over any interleaving of several workers' iterations, including after some workers have ended, no task is claimed twice, by the same worker or by different ones |
| RunnerProperties.PoolConserves | runner.py:232-299 | over any interleaving of several workers' iterations, no task is lost or duplicated: the task names across the queue directories stay the same, each in one directory |
| RunnerProperties.PoolOfOne | runner.py:232-299 | the turns of a single worker in the pool do exactly what that worker's own loop does |
| Generator.GetSeed | commandGenerator.py:8-25 | the seed is table entry i for 0 <= i < 64, entry 64 + i for -64 <= i < 0, and IndexError otherwise |
| Generator.SeedTableValues | commandGenerator.py:9-24 | the 64 seeds are positive 31-bit values and no seed occurs twice |
| Generator.GetSeedValues | commandGenerator.py:8-25 | every seed returned is a positive 31-bit value, and two accepted indices give the same seed exactly when they name the same entry (i and i - 64) |
| Generator.TaskNameFields | commandGenerator.py:90-96 | the name splits at `_` into alg, intra, epoch, rounds, load and seed, in that order |
| Generator.TaskNameInjective | commandGenerator.py:84-96 | different combinations with underscore-free alg and intra get different names |
| Generator.TaskNameShape | commandGenerator.py:90-96 | the name starts with the algorithm, ends with a digit, and has no line break |
| Generator.Flags | commandGenerator.py:102-116 | the command has fifteen key-value pairs, SEED the twelfth and FILENAME the last |
| Generator.CommandShape | commandGenerator.py:101-116 | the command starts with `java -jar <jar>`, contains ` SEED <get_seed(seed)>` and ends with ` FILENAME <name>` |
| Generator.FlagsTextContains | commandGenerator.py:102-116 | every pair appears in the command text |
| Generator.CommandIsOneLine | commandGenerator.py:101-116 | with line-break-free jar, alg, intra and float texts, the command is one line without surrounding whitespace |
| Generator.TaskFileInjective | commandGenerator.py:29 | different names give different task files |
| Generator.CreateFile | commandGenerator.py:28-33 | succeeds exactly when the path can be opened, and then the file holds exactly the value with nothing else changed; on failure nothing changes |
| Generator.SeedLevel | commandGenerator.py:88 | the seed loop yields one combination per seed, in order |
| Generator.LoadLevelCount | commandGenerator.py:87-88 | the load loop yields |loads| times |seeds| combinations |
| Generator.LoadLevelMembers | commandGenerator.py:87-88 | the load loop yields exactly the combinations of its loads and seeds |
| Generator.LoadLevelDistinct | commandGenerator.py:87-88 | the load loop yields no combination twice |
| Generator.EpochLevelCount | commandGenerator.py:86-88 | the epoch loop multiplies the count by the number of epochs |
| Generator.EpochLevelMembers | commandGenerator.py:86-88 | the epoch loop yields exactly the combinations of its epoch items, loads and seeds |
| Generator.EpochLevelDistinct | commandGenerator.py:86-88 | the epoch loop yields no combination twice |
| Generator.IntraLevelCount | commandGenerator.py:85-88 | the intra loop multiplies the count by the number of schedulers |
| Generator.IntraLevelMembers | commandGenerator.py:85-88 | the intra loop yields exactly the combinations of its schedulers and inner values |
| Generator.IntraLevelDistinct | commandGenerator.py:85-88 | the intra loop yields no combination twice |
| Generator.AlgLevelCount | commandGenerator.py:84-88 | the whole loop nest yields |algs|·|intras|·|epochs|·|loads|·|seeds| combinations |
| Generator.AlgLevelMembers | commandGenerator.py:84-88 | the loop nest yields exactly the combinations of the five parameter lists |
| Generator.AlgLevelDistinct | commandGenerator.py:84-88 | the loop nest yields no combination twice |
| Generator.CombosCount | commandGenerator.py:45-46 | the script writes the product of its list lengths and the seed count of files |
| Generator.CombosMembers | commandGenerator.py:45-88 | a combination is generated exactly when each of its parts is in its list and its seed is in range(numSeeds) |
| Generator.CombosNamesDistinct | commandGenerator.py:84-96 | with distinct, underscore-free parameters, all generated task names differ |
| Generator.EponScriptCount | commandGenerator.py:45-74 | the script as written generates 35 task files |
| Generator.EponScriptNames | commandGenerator.py:45-96 | the script as written generates 35 different task names |
| Generator.GeneratedThen | commandGenerator.py:84-120 | the files of one part of the loop and then the next are those of both parts in order |
| Generator.GeneratedStep | commandGenerator.py:120 | each iteration that can write adds exactly its own task file with its command |
| Generator.GeneratedFile | commandGenerator.py:120 | after the run, each combination's task file holds exactly its command line |
| Generator.GeneratedElsewhere | commandGenerator.py:120 | the run changes no path other than the task files |
| Generator.ReadyToWrite | commandGenerator.py:45-46 | with at most 64 seeds and an existing directory holding only regular files, every combination can be written |
| Generator.WriteSeeds | commandGenerator.py:88-120 | the seed loop succeeds exactly when every combination can be written, and then it writes their files in order |
| Generator.WriteLoads | commandGenerator.py:87-120 | the load loop succeeds exactly when all its combinations can be written, and then it writes them in order |
| Generator.WriteEpochs | commandGenerator.py:86-120 | the epoch loop succeeds exactly when all its combinations can be written, and then it writes them in order |
| Generator.WriteIntras | commandGenerator.py:85-120 | the intra loop succeeds exactly when all its combinations can be written, and then it writes them in order |
| Generator.Generate | commandGenerator.py:84-120 | the script runs to the end exactly when every combination can be written, and then leaves the files of all combinations in order |
| Handoff.GeneratedCommandReadBack | runner.py:63-67 | the runner reads back from a generated task file exactly the command line the generator built |
| Handoff.TaskLogName | runner.py:264 | the log of task `<name>.txt` is `<name>.log` |
| Handoff.GeneratedTaskRuns | runner.py:252-291 | a claimed generated task runs its own command, is routed by return code, and logs under its task name |

## Left out

- Child processes: `subprocess.run` in shell or non-shell mode, and `shlex.split`. The return code and the combined output are inputs of each iteration.
- `main`: the start-up stagger, `join` and argument parsing.
- The pool of worker processes is modelled by `Runner.PoolSpec`, which interleaves whole iterations: claim, run, log and route happen in one turn. Real processes interleave inside an iteration; for example, one worker claims and routes a task while another's child is still running. Each turn lists pending afresh from its own tree (`Runner.ClaimedName`), so in the pool no claim works from a stale listing. Claiming from a stale listing, with candidates that other workers have already taken, is modelled on its own by `Queue.FileSystem.TryClaim` and `Queue.FirstClaimable` over any candidate list, and by `Queue.VanishedNotClaimable` and `Queue.ClaimedOnce`. What this grain does not capture is overlapping writes to one log: tasks with the same stem (`x.txt`, `x.sh`) running at once in two workers both open `logs/x.log` with mode "w", and their output mixes or one truncates the other.
- The worker's docstring (runner.py:219) says it stops after `idle_timeout` seconds without finding a task. The code resets the idle clock at the claim, before the command runs (runner.py:245), and tests it at the next empty poll (runner.py:238). So a task's run time counts as idle time: after a task that ran longer than the timeout, the worker stops at its first empty poll. The model follows the code.
- Sleeps, `random.uniform` jitter and `post_move_delay`. An idle iteration ends in `Wait`, and the next iteration brings the next clock reading.
- Time: `time.monotonic()` readings are integer ticks. The `now_str()` timestamps and the formatted duration are opaque texts supplied with each iteration.
- Console output (`print`) in both scripts.
- Errors from `mkdir` are not modelled: directory creation always succeeds.
- The generator's floating-point values and their `str()` texts (`CYCLE`, `GUARD_BAND`, `ONU_LOAD`, `FINISH_TIME`) are opaque texts given with the script's parameters. The `windows_onu` and `average_bandwidth` computations are left out.
- `numpy.arange` seeds are `range(numSeeds)` over unbounded integers; numpy's `int64` bounds are not modelled.
- The seed table is copied as a constant, written in four rows of sixteen so that its properties can be checked row by row.
- Entries other than regular files (directories, sockets, FIFOs) are one kind, `Other`, whose contents are not modelled. So the model refuses to remove any `Other` entry at a task path, whereas `os.remove` (commandGenerator.py:30) removes a socket or FIFO and fails only on a directory. Likewise, POSIX `rename` of a regular file onto a socket or FIFO replaces it, whereas `CanMove` lets a regular file replace only a regular file or take a free name, so such a claim or routing move fails in the model.
- Reading a task file with `errors="ignore"`: a file is its decoded text; undecodable bytes and read errors other than a missing file are not modelled.
- Path joining: `directory + name + ".txt"` is the file `<name>.txt` in directory `directory`, which holds when the directory text ends with a separator, as it does in the script.
- Generator.Generate: when the script stops on an error, the model does not say which of the earlier files were already written.
- Runner.Worker.Run: the loop is driven by a finite sequence of iteration inputs; a worker that never ends is the limit of ever longer sequences.
- Failures to start the child: `shlex.split` raising ValueError on unbalanced quotes (runner.py:173, 191), and `subprocess.run` raising FileNotFoundError or PermissionError for a missing or non-executable program. Neither is caught (runner.py:273), so the worker dies with the task left in running and, when logging, a log holding only the `CMD:` header. The iteration input always carries a return code, so the model has no such case.
- A worker whose log cannot be opened dies with the task left in running (`Crashed`); what the pool does afterwards is not modelled.
- A claim or a routing move onto a name that already exists in the target directory replaces that file, as POSIX `rename` and the `os.replace` fallback at runner.py:92-95 do; it does not fail.
- The idle timeout is reached as soon as the idle time equals it (`>=` at runner.py:238).
