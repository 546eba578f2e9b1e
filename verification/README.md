# Verified models of the repository's step protocols, text rewriters and scans

This project models thirteen scripts and one loader of the repository in Dafny and proves what
their documentation promises of them, or exactly when the promise holds. `dafny verify dfyconfig.toml`
checks everything.

## What is modelled

| module | models | central result |
|---|---|---|
| `MutationSweep` | the backup, scope, restore and recovery protocol around `pyproject.toml` | over any number of invocations with a fault or death at any file operation, the original stays safe exactly when no backup write is torn, and a completed invocation has put it back |
| `WaitGuard` | the patched `os.fork` and `os.wait` | every interleaving keeps the books: created = returned + dropped + reaped elsewhere + unreaped, and only own children are returned |
| `BlockChain`, `BlockReplies`, `BlockWorkers`, `Json` | the sandbox block chain, its greenlights, the replies it accepts and its evidence | a passing verdict if and only if the whole chain was seen to complete; however it ends, only blocks whose greenlight is in the journal were invoked or awaited, none beside a worker the probe reported, and a second worker can only come from a probe that missed the first |
| `TasksLoader` | the interpreter state around a user's `tasks.py` | path and shadowed modules come back whatever the body does |
| `ArrayRewrite`, `TomlTable`, `ScopedPyproject`, `Lines` | the `[tool.mutmut]` array rewriter and the scoped pyproject | on a document read entry by entry it replaces the named array and nothing else, exactly when the document is clear and, on whole texts, the only line ends are LF and CR LF; last write wins exactly for bracket-free values |
| `IndexSplice`, `Frontmatter` | the marker splice and the frontmatter split and render | frame, last write wins, split undoes render: each with its exact condition |
| `SectionCheck` | the ordered section search | the one-pass search decides whether any ordered placement exists |
| `StepBlocks` | the step splitter | blocks are exactly the maximal steps; each line of a Steps section lies in one |
| `CancelRange` | the SGE and SLURM cancel commands | both command texts, read back, cancel the same tasks exactly when the range holds no white space or nothing to cancel |
| `ScopeTree`, `RemoteReadAck`, `DurableWrites` | the two scope lints | the walks charge each node to its innermost scope, once, and report exactly the scopes that own the evidence |
| `DottedNames`, `ImportBoundary` | the directional import rules | a line is reported exactly when a resolved import on it violates the rule |
| `SuggestTests` | test selection through the reverse import map | the reverse map is the inverse relation; per-file selection equals one batch |
| `SampleRotation` | the interleaved sampling loop | every round is a permutation; each surface leads once, or takes each position once, in `n` rounds: exactly under which cap |

`Text` holds substring search with the meaning of `str.find`, `Division` two facts on quotient and remainder.

Code that changes state in place is a class whose methods are proved equal to a specification
function (`Workspace.RunSweep` to `Sweep`, `Guard.GuardedWait` to `Drain`, `Interpreter.LoadTasksModule`
to `Entry` and `Exit`, `ChainState`, `NamePool`, `Scope`, `Scanner`, `Splitter`, `Selection`); the
promises are lemmas about those functions. The environment (processes, the disk, the CLI's replies,
the user's module body) is a value quantified over.

## Promises the code does not keep, and exactly when it does

- `ArrayRewrite.LastWriteWins`: a value holding `]` ends the array of the next rewrite early and leaves
  lines behind (`scripts/run_mutation.py:340`). Two rewrites equal the last one if and only if no value of
  the first holds `]`. A deselect id of a parametrized test is such a value.
- `TomlTable.RightExactlyWhenClear`: the rewriter is meant to preserve every sibling key
  (`scripts/run_mutation.py:322-325`). It does so if and only if, wherever it believes itself in the table, the
  only entry that begins with the key is the key's own array, that array stands there under the plain key, and
  the first `]` from there on is on the closing line. Otherwise it overwrites a sibling whose name begins with the
  key (`SiblingIsOverwritten`), eats the keys behind a scalar (`ScalarSwallowsNextKeys`), leaves the rest of an
  array behind (`BracketInStringLeavesRest`), or misses an array that is there: behind a commented header
  (`CommentHidesTable`), a header with blanks or quotes (`BlanksHideTable`) or under a dotted key
  (`DottedKeyHidesArray`).
- `ScopedPyproject.RightOnTextExactly`: lines are split with `splitlines`, which also breaks at characters that
  TOML allows inside comments and strings. A line that holds one is lost (`BrokenLineIsLost`,
  `Lines.SeparatorBreaksComment`); the whole-text rewrite is right if and only if the document is clear and the
  text has no line break but LF and CR LF.
- `MutationSweep.RunIsSafe`: the backup is written with a plain write. The original stays safe if and only
  if no backup write leaves a file that reads differently; one that does is copied over the intact file by the
  next recovery (`TornBackupOverwritesTheOriginal`).
- `MutationSweep.RestoredByteForByte`: files are read with newline translation, so the restored file has the
  committed one's lines always, and its bytes if and only if it holds no carriage return.
- `IndexSplice.LastWriteWins`, `IndexSplice.TailKeptExactly`: a table that holds END makes every further
  write grow the file and every check fail; and when END stands only in front of BEGIN, the guard lets the
  file through and everything behind BEGIN is replaced by a fresh END (`scripts/build_principles_index.py:95-98`).
- `Frontmatter.SplitUndoesRender`: holds if and only if the block is closed.
- `TasksLoader`: the comment says the host cache is left untouched (`src/hpc_agent/__init__.py:320`). The
  shadowed entries are; a submodule the body imported under a shadowed package stays
  (`ImportedSubmoduleStays`); a body that only imports leaves the cache as it was if and only if the host had
  cached every name it imported (`ImportsLeaveCacheIntactExactly`). When a directory exists but cannot be listed, the error comes in front of
  the `try`: then the path is restored only if both directories were on it already (`PathRestoredExactly`), and
  the shadowed modules are back only if the listing failed at `.hpc` or `.hpc` shadows nothing
  (`ShadowedBackExactly`, `UnlistableRootLosesSrc`). "Root before `.hpc/`" fails when the root was on the path already and `.hpc` was not
  (`RootBeforeHpcExactly`).
- `WaitGuard.LeaksExactlyWhenAPidIsStale`: a stray can reach the caller if and only if some remembered pid
  belongs to no unreaped tracked child, which happens when other code reaps a tracked child
  (`OwnChildReapedElsewhereLeaks`).
- `BlockChain`: a resolve reply with an empty submit spec passes its row, its greenlight is committed, and
  only then does composing the S2 spec raise a refusal; the verdict is still a failure (`RefusedOn` in the
  contracts of `Start`, `RunChain` and `Prove`, `BlockChain.RefusedTrace`).
- `BlockWorkers.FailedProbeNeedsTheLease`: after one failed probe the driver launches a block the tick has launched
  already. Without the single lease a block gets two workers in this way and in no other
  (`SecondWorkerExactly`).
- `CancelRange.EmptyRangeCancelsNothing`: a range of commas and blanks alone gives an empty SGE command.
  A range with white space, which the SGE branch strips, splits the SLURM targets (`TargetsArriveWhole`), so the
  two commands then agree only if there is nothing to cancel (`SameCancellation`, `BlankLosesTasks`).
- `SampleRotation.EvenLeadExactly`, `SampleRotation.EvenPositionsExactly`: the rotation is meant to keep any surface
  from consistently paying the coldest state. In any `n` rounds each surface leads exactly once if and only if the
  round the capped surface would lead comes before its cap; each takes each position exactly once if and only if
  none of the rounds is capped. Otherwise the surface behind the capped one leads twice
  (`BehindTheCappedLeadsTwice`).

## Model

| member | source | states |
|---|---|---|
| MutationSweep.Workspace.RecoverStaleBackup | scripts/run_mutation.py:460-465 | recovery with a fault at either file operation leaves exactly the state and outcome of `Recover` |
| MutationSweep.Workspace.RunSweep | scripts/run_mutation.py:468-527 | the sweep, with a fault or death at any operation and the restore in the finally block, is exactly `Sweep` |
| MutationSweep.Workspace.Invoke | scripts/run_mutation.py:640-641 | one invocation, recovery first, is `Step` |
| MutationSweep.Workspace.InvokeAll | scripts/run_mutation.py:640-641 | any number of invocations, recovery first in each, is `Run` |
| MutationSweep.StepIsSafe | scripts/run_mutation.py:460-527 | of all faults of one invocation exactly a torn backup write endangers the original; it is restored whenever the restore itself goes through, even if the body raised |
| MutationSweep.RunIsSafe | scripts/run_mutation.py:460-527 | over any run of invocations the backup reads as the original, or there is none and pyproject is the original, if and only if no backup write leaves a file that reads differently; what "reads as" keeps is `SafeKeepsLines` |
| MutationSweep.TornBackupOverwritesTheOriginal | scripts/run_mutation.py:462-475 | a torn backup write leaves pyproject intact, and the next recovery overwrites it with the torn text |
| MutationSweep.RestoredByteForByte | scripts/run_mutation.py:464-525 | a completed invocation without torn backups before it leaves no backup and the original line by line: as `splitlines` sees lines always, as TOML sees them if each carriage return stands in front of a line feed, and byte for byte if and only if there is no carriage return |
| MutationSweep.ReadTextIsExact | scripts/run_mutation.py:473 | reading with newline translation changes nothing if and only if there is no carriage return |
| MutationSweep.ReadTextKeepsLines | scripts/run_mutation.py:473 | for every text, reading keeps the lines `splitlines` finds, CR LF and lone CR included |
| MutationSweep.ReadTextKeepsTomlLines | scripts/run_mutation.py:473 | for every text whose carriage returns all stand in front of a line feed, reading keeps the lines TOML finds |
| MutationSweep.SafeKeepsLines | scripts/run_mutation.py:460-525 | as long as the original is safe, its lines are those of the backup, or without one of pyproject |
| MutationSweep.RecoveryMustComeFirst | scripts/run_mutation.py:640-641 | without recovery first, a death followed by one clean sweep loses the original for good |
| MutationSweep.RefusedTouchesNothing | scripts/run_mutation.py:473-474 | a scoped text that is refused or does not parse leaves both files as they were |
| MutationSweep.BodySeesScopedText | scripts/run_mutation.py:475-477 | a death inside the body leaves the scoped text in pyproject and the original in the backup |
| MutationSweep.RaisedBodyIsRestored | scripts/run_mutation.py:523-525 | an exception from the scoped write or the body still puts the original back and removes the backup |
| WaitGuard.Guard.TrackingFork | scripts/_mutmut_guarded_run.py:64-68 | the pid is passed on, and remembered if and only if it is positive, that is in the parent |
| WaitGuard.Guard.GuardedWait | scripts/_mutmut_guarded_run.py:70-79 | returns the first remembered pid the kernel hands out, forgets it, has dropped only unremembered ones, and raises only when none is left |
| WaitGuard.WaitIsARun | scripts/_mutmut_guarded_run.py:70-79 | that loop is a run of the process world: same child returned, same pid forgotten, the strays dropped |
| WaitGuard.EveryRunKeepsInv | scripts/_mutmut_guarded_run.py:62-79 | every interleaving of forks, strays, exits, pid reuse and waits keeps the invariant |
| WaitGuard.InvStep | scripts/_mutmut_guarded_run.py:62-79 | each event keeps: the remembered pids are those of the unreaped own children, only own children were returned, only strays dropped |
| WaitGuard.CreatedIsAccountedFor | scripts/_mutmut_guarded_run.py:62-79 | children created = returned + dropped + reaped elsewhere + unreaped |
| WaitGuard.WaitTurn | scripts/_mutmut_guarded_run.py:71-79 | a turn returns an own, not yet returned child, or drops a stray and leaves fewer of them (the loop's measure) |
| WaitGuard.WaitIsBounded | scripts/_mutmut_guarded_run.py:71-79 | one wait takes at most one turn more than there are strays at its beginning and strays that arrive meanwhile |
| WaitGuard.DrainFindsTheFirstTracked | scripts/_mutmut_guarded_run.py:70-79 | whatever order the kernel reaps in, the wait ends at the first own child and fails only if there is none |
| WaitGuard.LeaksExactlyWhenAPidIsStale | scripts/_mutmut_guarded_run.py:73-75 | some continuation hands the caller a stray if and only if a remembered pid belongs to no unreaped own child |
| WaitGuard.OwnChildReapedElsewhereLeaks | scripts/_mutmut_guarded_run.py:73-75 | reaping an own child elsewhere makes such a leak possible |
| BlockChain.FindGreenlight | scripts/run_sandbox_proving.py:521-537 | found if and only if the journal holds a "y" for the block naming its successor, and then the newest one |
| BlockChain.ChainState.Record | scripts/run_sandbox_proving.py:989-1005 | a row is appended and the first failing one names the failed step; while the chain runs, only the last row can fail |
| BlockChain.ChainState.CommitGreenlight | scripts/run_sandbox_proving.py:1478-1539 | succeeds if and only if the tick is green and the greenlight is read back from the journal |
| BlockChain.ChainState.PollDetachedState | scripts/run_sandbox_proving.py:1331-1346 | one probe, remembered as made; what its states mean for the launch is `ProbeDecides` |
| BlockChain.ChainState.LaunchBlockDetached | scripts/run_sandbox_proving.py:1423-1475 | probes first, invokes only when no worker is reported (`NoInvocationBesideAWorker` names the states), goes on exactly for a live worker or a detached launch |
| BlockChain.ChainState.WaitForDetachedTerminal | scripts/run_sandbox_proving.py:1349-1417 | goes on if and only if the wait is no timeout and the terminal record holds a result object |
| BlockChain.ChainState.Prepare | scripts/run_sandbox_proving.py:1547-1765 | everything before the first greenlight: goes on if and only if each check holds |
| BlockChain.ChainState.GreenlightS1 | scripts/run_sandbox_proving.py:1769-1799 | the self-check never fails; S1 is cleared if and only if the built greenlight lands in the journal |
| BlockChain.ChainState.RunBlock | scripts/run_sandbox_proving.py:1801-1829 | launch, wait and judge: goes on if and only if the worker is there, its terminal is found and good; then the block is engaged with and nothing behind it was touched |
| BlockChain.ChainState.Resume | scripts/run_sandbox_proving.py:1831-1858 | goes on if and only if the greenlight commits and the parked spec is usable; then it is the next block's turn |
| BlockChain.ChainState.Start | scripts/run_sandbox_proving.py:1542-1802 | the chain up to the S2 spec: goes on if and only if all checks hold, the greenlight landed and a spec can be composed; a refusal escapes if and only if there is no resolved block, or a committed greenlight and no submit spec |
| BlockChain.ChainState.Leg | scripts/run_sandbox_proving.py:1801-1858 | a block runs to a good terminal, its greenlight commits, and only then is it the next block's turn |
| BlockChain.ChainState.RunChain | scripts/run_sandbox_proving.py:1542-1946 | reaches the end if and only if `Complete`, and what it did outside is `TraceOf`; however it leaves, every invoked or awaited block has its predecessor's "y" in the journal and every invoked one a probe that was red or named no worker state, each at most once and in that order; all passing rows on success, a failing last row on a stop |
| BlockChain.RefusedTrace | scripts/run_sandbox_proving.py:1769-1802 | a refusal escapes before any tick, or with the first greenlight committed and nothing launched |
| BlockChain.SafeMeansCleared | scripts/run_sandbox_proving.py:1423-1539 | a trace of justified events means that about the journal and the probe replies themselves |
| BlockChain.ProbeDecides | scripts/run_sandbox_proving.py:1444-1475 | in every run, a block whose turn comes is awaited and not invoked on "running" or "exited_recorded", neither on "exited_unrecorded", and on every other answer or a red probe invoked, then awaited exactly if that detached |
| BlockChain.NoInvocationBesideAWorker | scripts/run_sandbox_proving.py:238 | in no run is a block invoked whose probe answered "running", "exited_recorded" or "exited_unrecorded" |
| BlockChain.TurnEventOfRun | scripts/run_sandbox_proving.py:1542-1946 | an event of a block's turn is in a run's trace if and only if the block was reached and its turn did that |
| BlockChain.Prove | scripts/run_sandbox_proving.py:2137-2140 | the verdict is pass if and only if the run completed with all three greenlights and good terminals; an escaped refusal fails; only an uncaught exception leaves none |
| BlockReplies.PassMeans | scripts/run_sandbox_proving.py:1801-1945 | a run completes if and only if it started, the journal holds a "y" from submit-s1 to submit-s2, from s2 to s3 and from s3 to s4 after green ticks, the parked specs can be passed on, and the terminal records say: canary verified, watched to the end (lifecycle complete or absent), harvested or partly harvested with a table that is not empty |
| BlockReplies.GreenlightSays | scripts/run_sandbox_proving.py:521-537 | a greenlight is a record with response "y", the block's name and the successor's name, each by name |
| BlockReplies.EnvelopeSays | scripts/run_sandbox_proving.py:329-357 | an envelope is accepted if and only if all six fields are there, the stage is a non-empty text, the flag a boolean, the brief an object, and the next block absent, null or an object |
| BlockReplies.DetachedSays | scripts/run_sandbox_proving.py:1458-1475 | a launch counts as detached if and only if the call succeeded with such an envelope at stage "detached" |
| BlockReplies.TerminalSays | scripts/run_sandbox_proving.py:1378-1408 | a terminal is found if and only if the wait is no timeout and the record on disk has a result object; that object is what is judged |
| BlockReplies.SkipSays | scripts/run_sandbox_proving.py:1632-1640 | the bare tick passes if and only if it is the skip back to submit-s1 with its six fields and the reason text |
| BlockReplies.WalkSays | scripts/run_sandbox_proving.py:1673-1703 | the walk is clean if and only if its envelope is sound, at "resolved" and asking for a decision, each recorded choice was resolved on disk and nothing is ambiguous |
| BlockReplies.ResolvedSays | scripts/run_sandbox_proving.py:1732-1756 | the resolve reply passes if and only if it is at "resolved" with a submit spec and a sidecar, and names a minted run id that is no placeholder and is the expected one, if one was |
| BlockReplies.MintedExactly | scripts/run_sandbox_proving.py:375-382 | a minted id is name, dash and eight hexadecimal digits, or that with one line feed behind it |
| BlockWorkers.SecondWorkerExactly | scripts/run_sandbox_proving.py:1432-1475 | with every launch granted, a block gets a second worker if and only if the driver invoked it on a probe that missed the first; a tick never makes the second |
| BlockWorkers.OneWorkerWithoutLease | scripts/run_sandbox_proving.py:1432-1475 | with probes that miss nobody no run of the driver gives a block two workers, whichever ticks advance |
| BlockWorkers.FailedProbeNeedsTheLease | scripts/run_sandbox_proving.py:1343-1344 | in every environment in which the chain gets to S2, its first tick advances and the probe fails, the run gives S2 two workers without the lease and one with it |
| BlockWorkers.EngagedMeansOneWorker | scripts/run_sandbox_proving.py:1444-1475 | a block the driver engaged with has exactly one worker, whoever launched it |
| BlockWorkers.InvocationsFindTheLeaseFree | scripts/run_sandbox_proving.py:1444-1458 | with complete probes no invocation of a justified run is refused by the lease |
| Json.NamePool.Collect | scripts/run_sandbox_proving.py:402-422 | the set grows by exactly the keys and string scalars at every depth |
| Json.ProvenanceShapeProblems | scripts/run_sandbox_proving.py:425-431 | the problems are exactly the non-meta keys named nowhere in the brief |
| Json.GreenlightIsBriefShaped | scripts/run_sandbox_proving.py:385-399 | every key of a greenlight built from a brief is named in it, so the self-check cannot fire |
| Json.GreenlightCarriesResolved | scripts/run_sandbox_proving.py:385-399 | a greenlight exists if and only if the brief has a resolved block that is not empty; it holds every entry of that block with its value, and "submit-s2" as next block |
| TasksLoader.Interpreter.LoadTasksModule | src/hpc_agent/__init__.py:290-345 | state and outcome for any module body, returning or raising: run in `Entry`, left in `Exit`; what the body finds cached is `NothingStaleAtEntry` |
| TasksLoader.Interpreter.ShadowBoth | src/hpc_agent/__init__.py:323-333 | pops exactly the cached keys whose top segment names a child of either directory |
| TasksLoader.NothingStaleAtEntry | src/hpc_agent/__init__.py:311-333 | while the body runs a key of the host is cached if and only if it is not, and is not below, an identifier `x` for which either directory has a child `x` or `x.py`; and then it is the host's own module |
| TasksLoader.OnlyTheHostsAtEntry | src/hpc_agent/__init__.py:311-333 | nothing else is cached at that point |
| TasksLoader.InsertedInFront | src/hpc_agent/__init__.py:307-310 | the path the body sees is the host's with exactly the directories it lacked in front |
| TasksLoader.ShadowedComeBack | src/hpc_agent/__init__.py:334-339 | whatever the body did, the path is the old one and every shadowed key has its own module again |
| TasksLoader.ImportsLeaveCacheIntactExactly | src/hpc_agent/__init__.py:318-339 | after a body that only imports, the cache is the host's again if and only if the host had cached every name it imported |
| TasksLoader.ImportedSubmoduleStays | src/hpc_agent/__init__.py:337-339 | an experiment submodule imported under a shadowed package stays cached below the host's package |
| TasksLoader.PathRestoredExactly | src/hpc_agent/__init__.py:307-337 | the path is restored if and only if both directories could be listed or were on it already |
| TasksLoader.ShadowedBackExactly | src/hpc_agent/__init__.py:323-339 | the shadowed modules are back if and only if both directories could be listed, or the listing raised before anything was popped |
| TasksLoader.UnlistableRootLosesSrc | src/hpc_agent/__init__.py:324-333 | with an unlistable root the host loses a cached `src` that `.hpc` has a child of |
| TasksLoader.RootBeforeHpcExactly | src/hpc_agent/__init__.py:302-310 | exactly when the experiment root is searched in front of `.hpc` |
| ArrayRewrite.SkipArray | scripts/run_mutation.py:340-342 | the skip ends behind the first line that holds a bracket, or at the end |
| ArrayRewrite.ReplaceLines | scripts/run_mutation.py:328-350 | the line loop is `Rewrite`, and an error if and only if the key is not found in the table |
| ArrayRewrite.ReplaceNamedArray | scripts/run_mutation.py:319-350 | the same on whole texts |
| ArrayRewrite.RewriteTwice | scripts/run_mutation.py:339-345 | a second rewrite acts as one whose block drags along what the first one's values leave over |
| ArrayRewrite.LeftoverExactly | scripts/run_mutation.py:340-342 | nothing is left over if and only if no value holds a bracket |
| ArrayRewrite.LastWriteWins | scripts/run_mutation.py:319-350 | two rewrites of a key equal the last if and only if the first values hold no bracket; idempotence included |
| ArrayRewrite.TextLastWriteWins | scripts/run_mutation.py:319-350 | the same for whole texts, through splitting and joining lines |
| ArrayRewrite.RewritesCommute | scripts/run_mutation.py:378-386 | rewrites of different keys commute on texts the scan segments alike for both, whatever the values |
| ScopedPyproject.RewritesCommute | scripts/run_mutation.py:378-386 | rewrites of two keys commute on every document that is rewritable for both, whatever the values |
| TomlTable.RightExactlyWhenClear | scripts/run_mutation.py:319-350 | the rewriter replaces `tool.mutmut.<key>`, however header and key spell it, and keeps every other entry, whatever the values, if and only if the document is clear for the key |
| TomlTable.ClearIsRight | scripts/run_mutation.py:334-349 | on a clear document the scan is that replacement, and the key is found if and only if its array is there |
| TomlTable.UnclearIsWrong | scripts/run_mutation.py:336-345 | on any other document it overwrites another entry, misses or misnames the array, or leaves part of it |
| TomlTable.PlainIsClearWhenFine | scripts/run_mutation.py:336-342 | with the expected header spelling and no header-like array lines, clear means: in the table only the key's own array begins with the key, it stands nowhere else, and its first bracket is on the closing line |
| TomlTable.SiblingIsOverwritten | scripts/run_mutation.py:339-345 | `tests_dir_extra` is overwritten by a rewrite of `tests_dir` |
| TomlTable.ScalarSwallowsNextKeys | scripts/run_mutation.py:339-342 | behind a scalar `tests_dir` two further keys are lost |
| TomlTable.BracketInStringLeavesRest | scripts/run_mutation.py:340-342 | a bracket inside a string leaves the rest of the array behind the new one |
| TomlTable.CommentHidesTable | scripts/run_mutation.py:337-338 | a commented table header is not recognized |
| TomlTable.BlanksHideTable | scripts/run_mutation.py:337-338 | `[ tool.mutmut ]` has the array in the table and the key is not found |
| TomlTable.DottedKeyHidesArray | scripts/run_mutation.py:337-339 | nor is it under `[tool]` as `mutmut.tests_dir` |
| ScopedPyproject.RightOnTextExactly | scripts/run_mutation.py:319-350 | on whole texts with the key's array there: right, whatever the values, if and only if the document is clear and the text holds no line break but LF and CR LF |
| ScopedPyproject.ClearTextIsRight | scripts/run_mutation.py:348-350 | one rewrite of a clear text: replaced if the array is there, refused if not |
| ScopedPyproject.BrokenLineIsLost | scripts/run_mutation.py:328 | every line `splitlines` breaks is gone from the output |
| Lines.LinesSurviveExactly | scripts/run_mutation.py:328 | `splitlines` finds the lines of a TOML text if and only if the text holds no other line break |
| Lines.SeparatorBreaksComment | scripts/run_mutation.py:328 | a line separator inside a comment makes its tail a line |
| ScopedPyproject.RenderReplacesTheNamedArrays | scripts/run_mutation.py:353-389 | the scoped file is the committed one with just the named arrays replaced, entry for entry, if and only if the committed file holds no line break but LF and CR LF |
| ScopedPyproject.ScopedReadsBack | scripts/run_mutation.py:379-386 | read back, `paths_to_mutate` is the one source, `tests_dir` its tests, and `pytest_add_cli_args` has `--deselect=` arguments behind the committed ones |
| Lines.SplitUndoesUnlines | scripts/run_mutation.py:328-350 | splitting the joined lines gives the lines back |
| IndexSplice.SpliceFrame | scripts/build_principles_index.py:93-99 | the result is the document's own head, the new region, and its own tail |
| IndexSplice.TailKeptExactly | scripts/build_principles_index.py:95-99 | the text from END on survives if and only if an END stands behind the first BEGIN |
| IndexSplice.EndBehindTable | scripts/build_principles_index.py:98-99 | in a written region END is first found behind the table if and only if the table does not hold it |
| IndexSplice.WrittenParts | scripts/build_principles_index.py:93-99 | a rewrite keeps both markers and the head, and keeps the tail if and only if the table lacks END |
| IndexSplice.LastWriteWins | scripts/build_principles_index.py:93-99 | the second splice alone decides, if and only if the first table lacks END |
| IndexSplice.IndexFile.Build | scripts/build_principles_index.py:102-119 | file and return code in every case, the error included |
| IndexSplice.IndexFile.WriteThenCheck | scripts/build_principles_index.py:102-119 | a write followed by a check returns 0 if and only if the table lacks END |
| IndexSplice.RefusedExactly | scripts/build_principles_index.py:95-96 | refused if and only if one of the markers occurs nowhere |
| Frontmatter.FirstClose | scripts/build_primitive_frontmatter.py:160-162 | in a rendered doc the first closing marker is the rendered one if and only if the block is closed |
| Frontmatter.SplitUndoesRender | scripts/build_primitive_frontmatter.py:156-175 | splitting a rendered doc gives block and body back, for any body, if and only if the block is closed |
| Frontmatter.RenderUndoesSplit | scripts/build_primitive_frontmatter.py:156-175 | rendering what was split gives the document back if and only if its frontmatter is closed by a full marker line |
| Frontmatter.RegenerationKeepsBody | scripts/build_primitive_frontmatter.py:172-175 | any number of regenerations keeps the body and leaves the newest block only |
| Frontmatter.OpenBlockLeaksIntoBody | scripts/build_primitive_frontmatter.py:160-175 | a block that is not closed makes the body grow |
| Frontmatter.SplitOtherwise | scripts/build_primitive_frontmatter.py:158-169 | without an opening or a closing marker all is body; a block closed by a marker at the very end is split off with no body |
| SectionCheck.CheckSections | packs/quant/check/check_quant.py:57-67 | true if and only if all markers can be placed in order without overlap |
| SectionCheck.LeftmostLosesNothing | packs/quant/check/check_quant.py:63-66 | moving the first marker of any placement to the leftmost occurrence keeps it a placement |
| SectionCheck.StepEquivalence | packs/quant/check/check_quant.py:61-66 | one step of the cursor keeps placeability, both ways |
| StepBlocks.SplitIntoSteps | scripts/lint_skills.py:259-303 | one block per step start, in order, each with exactly the lines, title and bounds of its step |
| StepBlocks.Splitter.Take | scripts/lint_skills.py:271-299 | one line keeps the invariant: closed blocks are whole steps, the open one runs up to here |
| StepBlocks.StartsBeforeLists | scripts/lint_skills.py:280-297 | the starts are exactly the step headings inside Steps sections, ascending |
| StepBlocks.StepsAreDisjoint | scripts/lint_skills.py:278-290 | steps do not overlap and a start has one end |
| StepBlocks.EveryLineInOneStep | scripts/lint_skills.py:284-299 | from the first step heading of a Steps section on, each line lies in exactly one step |
| CancelRange.SameCancellation | scripts/sandbox_anomaly_matrix.py:191-214 | for any range whose stripped, non-empty parts are segments the SGE deletions cancel exactly every given id that is not blank in every task of the range, and the SLURM call the same if and only if the range holds no white space or no task |
| CancelRange.KeptIds | scripts/sandbox_anomaly_matrix.py:195 | an id is kept if and only if it was given and holds a character that is not white space |
| CancelRange.KeepIdsFilters | scripts/sandbox_anomaly_matrix.py:195 | ids are kept one by one, in the order given |
| CancelRange.RefusedExactly | scripts/sandbox_anomaly_matrix.py:191-197 | refused if and only if the scheduler is unknown or every id is blank |
| CancelRange.WholeJobs | scripts/sandbox_anomaly_matrix.py:205-214 | without a range both commands name exactly the kept ids, in order |
| CancelRange.SegmentsRead | scripts/sandbox_anomaly_matrix.py:206-213 | how a scheduler reads the decimal forms `n`, `n-m` and `n-m:s` |
| CancelRange.InSegmentExactly | scripts/sandbox_anomaly_matrix.py:206-213 | a task is in such a segment if and only if stepping from its first reaches it before its last |
| CancelRange.BlankLosesTasks | scripts/sandbox_anomaly_matrix.py:204-213 | for job 7 and "1, 2" the SGE form cancels task 2, the SLURM form does not |
| CancelRange.SgeCancelsExactly | scripts/sandbox_anomaly_matrix.py:206-213 | the deletion sequence, read back as words, cancels exactly ids times segments |
| CancelRange.SlurmCancelsExactly | scripts/sandbox_anomaly_matrix.py:198-205 | without white space the subscripted call, read back as words, cancels exactly ids times the range |
| CancelRange.WhiteSpaceCancelsNothing | scripts/sandbox_anomaly_matrix.py:198-205 | with white space in the range no word of the call is a target |
| CancelRange.TargetsArriveWhole | scripts/sandbox_anomaly_matrix.py:199-204 | the subscripted targets arrive as whole words if and only if the range holds no white space |
| CancelRange.EmptyRangeCancelsNothing | scripts/sandbox_anomaly_matrix.py:210-213 | a range of commas and blanks alone cancels nothing |
| CancelRange.SplitUndoesJoin | scripts/sandbox_anomaly_matrix.py:211-213 | splitting undoes joining when no part holds the separator |
| ScopeTree.EveryNodeChargedOnce | scripts/lint_remote_read_ack.py:245-256 | root and definitions share out all other nodes, each occurrence to one scope |
| ScopeTree.OwnedIsInnermost | scripts/lint_remote_read_ack.py:238-240 | a node is charged to a scope if and only if that is the innermost one around it |
| ScopeTree.InnermostExists | scripts/lint_remote_read_ack.py:238-240 | every node below the root has exactly one innermost scope |
| ScopeTree.DefsAreScopes | scripts/lint_remote_read_ack.py:245-251 | the definitions listed below a root are exactly the nested scopes of the tree |
| RemoteReadAck.Collector.Walk | scripts/lint_remote_read_ack.py:245-256 | the walk adds to its scope exactly the evidence charged to it and opens one scope per definition below |
| RemoteReadAck.CandidateScopes | scripts/lint_remote_read_ack.py:235-259 | in walk order; a label is returned if and only if it belongs to a scope that is innermost around an ssh_run call and a `.stdout` read |
| RemoteReadAck.CandidateIsInnermost | scripts/lint_remote_read_ack.py:235-259 | a scope is a candidate if and only if it is innermost around some ssh_run call and some `.stdout` read |
| RemoteReadAck.EvidenceExactly | scripts/lint_remote_read_ack.py:235-259 | evidence is a call of `ssh_run`, bare or as an attribute, and an attribute named `stdout` |
| DurableWrites.Scanner.Walk | scripts/lint_atomic_durable_writes.py:191-213 | taints and writes grow by exactly those of the definition's own nodes |
| DurableWrites.ScanFunction | scripts/lint_atomic_durable_writes.py:182-216 | the definition's own writes whose target is durable or tainted in it, in order |
| DurableWrites.FlaggedIsInnermost | scripts/lint_atomic_durable_writes.py:182-216 | flagged in a definition if and only if it is innermost around the write and the target is durable or tainted anywhere in that same scope |
| DurableWrites.LintFile | scripts/lint_atomic_durable_writes.py:244-268 | over a whole file a write is reported under a function if and only if some definition of that name, not exempt, is innermost around it and its target durable or tainted there |
| DurableWrites.EveryWriteScannedOnce | scripts/lint_atomic_durable_writes.py:193-220 | scanning all definitions sees each write inside some definition exactly once |
| DurableWrites.HoldsBasenameExactly | scripts/lint_atomic_durable_writes.py:161-165 | a value is durable if and only if some constant at or below it, along a path of children, is a durable file name |
| DurableWrites.TaintExactly | scripts/lint_atomic_durable_writes.py:158-170 | a name is tainted if and only if it is the one bare target of an assignment of such a value |
| DurableWrites.WriteExactly | scripts/lint_atomic_durable_writes.py:119-155 | a call is a write if and only if it is `write_text` or `write_bytes` on a bare name, or `ZipFile` of one with `w` or `x` in its mode; line, target and kind are the call's |
| DurableWrites.LastModeDecides | scripts/lint_atomic_durable_writes.py:146-150 | of several `mode` keywords with a constant the last one counts |
| DottedNames.UnderIsSegmentPrefix | scripts/lint_subject_imports.py:419-421 | the dotted string-prefix test is prefix of segments |
| DottedNames.UnderIsTop | src/hpc_agent/__init__.py:331 | on a dot-free name the test compares first segments |
| ImportBoundary.IterImports | scripts/lint_subject_imports.py:140-173 | the strings collected are the spelled-out resolutions of all imports, in order |
| ImportBoundary.SpellingDoesNotMatter | scripts/lint_subject_imports.py:144-149 | relative and absolute spellings bind the same modules, line by line; which package the dots name is fixed by the two laws below |
| ImportBoundary.OneDotIsThePackage | scripts/lint_subject_imports.py:160-164 | an import with one leading dot binds what the same import spelled from the current package binds |
| ImportBoundary.OneMoreDotIsOneParentUp | scripts/lint_subject_imports.py:160-164 | one dot more in a package one level deeper binds the same |
| ImportBoundary.ResolvesToNothing | scripts/lint_subject_imports.py:161-168 | an import binds nothing if and only if it has more dots than the package has segments, or names no module |
| ImportBoundary.ResolveBinds | scripts/lint_subject_imports.py:167-172 | a from-import binds the module and, below it, each imported name but the star, on its own line |
| ImportBoundary.PlainBinds | scripts/lint_subject_imports.py:156-157 | a plain import binds exactly the names it lists |
| ImportBoundary.TargetsRoleIsPrefix | scripts/lint_subject_imports.py:419-421 | the role test is prefix of segments |
| ImportBoundary.ImportedSubjectIsThirdSegment | scripts/lint_subject_imports.py:112-130 | the subject is the segment behind the role, if there is one |
| ImportBoundary.DirAllowedIsAllowed | scripts/lint_subject_imports.py:424-430 | the allowlist test is prefix of segments for that source file |
| ImportBoundary.GroupByLine | scripts/lint_subject_imports.py:459-464 | per line and role exactly the modules that hit it, in order |
| ImportBoundary.ReportedIsViolation | scripts/lint_subject_imports.py:459-471 | a group has an offender if and only if its line violates the rule in that role, and then one bound on that line |
| ImportBoundary.LintDirectional | scripts/lint_subject_imports.py:451-479 | a line and role are reported if and only if the resolved imports violate the rule there, with a judged module bound on that line and outside the allowlist |
| SuggestTests.ReverseSrcDeps | scripts/suggest_tests.py:210-222 | the reverse map is the exact inverse of the import relation |
| SuggestTests.ReachModules | scripts/suggest_tests.py:233-245 | the changed modules and every importer of one or of something below one |
| SuggestTests.ImportGraphTargets | scripts/suggest_tests.py:248-259 | the tests that name something reached |
| SuggestTests.SelectedExactly | scripts/suggest_tests.py:225-259 | selected if and only if the test names a changed module, or a source file importing one or a submodule of one |
| SuggestTests.TargetsOfUnion | scripts/suggest_tests.py:329-337 | selection distributes over the changed modules |
| SuggestTests.Selection.Add | scripts/suggest_tests.py:292-299 | targets and the reason's set grow by the paths; true if there were any |
| SuggestTests.Selection.Consider | scripts/suggest_tests.py:319-341 | one changed file lands in non-source, unmapped, or adds its targets |
| SuggestTests.Suggest | scripts/suggest_tests.py:305-342 | all files are considered once, and the per-file graph selections add up to the one batched call |
| SuggestTests.EveryPathOnce | scripts/suggest_tests.py:319-341 | each changed path is in exactly one of: non-source, unmapped, contributing a selected target |
| SuggestTests.ModuleOfPath | scripts/suggest_tests.py:131-148 | `src/` and parts joined by slashes and `.py` is the module of the parts joined by dots, an `__init__.py` that of its package |
| SuggestTests.IsSourceExactly | scripts/suggest_tests.py:321-323 | a path counts as source if and only if it is below `src/hpc_agent/` and its last part is a name with the suffix `.py` |
| SuggestTests.SelectedForSomeFile | scripts/suggest_tests.py:319-342 | a test is selected if and only if some changed source file has it as mirror or curated consumer, or the import graph leads to it from that file's module |
| SampleRotation.CollectSamples | scripts/measure_dispatch_floor.py:207-238 | every surface's samples are the readings of its own calls in call order, `runs` of them (the capped one at most its cap); the warm samples follow one discarded call |
| SampleRotation.SampleIsReading | scripts/measure_dispatch_floor.py:229-232 | each call of a surface adds its own reading behind those of the calls before it |
| SampleRotation.RoundIsPermutation | scripts/measure_dispatch_floor.py:227-228 | a round's order is a permutation of the surfaces |
| SampleRotation.EveryPositionOnce | scripts/measure_dispatch_floor.py:226-229 | in the rotated orders of any `n` consecutive rounds each surface takes each position in exactly one |
| SampleRotation.EvenLeadExactly | scripts/measure_dispatch_floor.py:226-232 | in the calls really made in any `n` rounds every surface leads exactly once if and only if the capped one's turn to lead comes before its cap |
| SampleRotation.EvenPositionsExactly | scripts/measure_dispatch_floor.py:226-232 | every surface takes every position exactly once in any `n` rounds if and only if none of them is capped |
| SampleRotation.ScheduleMeetsQuota | scripts/measure_dispatch_floor.py:226-232 | the calls of a collection sample each surface as often as it is due |
| SampleRotation.BehindTheCappedLeadsTwice | scripts/measure_dispatch_floor.py:230-231 | otherwise the surface behind the capped one leads twice, the capped one never, the others once |

## Left out

- Subprocesses, SSH, docker, git, globbing, argument parsing, printing and markdown: replies and directory listings are values quantified over.
- Parsers (Python, TOML, YAML, JSON, regular expressions): models start from the tree, value or classified line; `isidentifier` is a parameter of which only "holds no dot" is used.
- MutationSweep.RunIsSafe: nothing else edits the two files, and the path up to the scoped text is one operation; `mutants/` and the child processes are part of the body.
- WaitGuard.EveryRunKeepsInv: the parent is single-threaded and only the patched wait reaps tracked children; dropping the second assumption is `LeaksExactlyWhenAPidIsStale`.
- WaitGuard.Guard.TrackingFork: every fork through the patched function counts as tracked, as in the code, whoever calls it.
- BlockChain.ChainState.RunChain: rows carry their step and verdict but not their where, check and detail texts; the spec contents passed to a block are not modelled, only whether one can be composed; a skip reason that is no string counts as not actionable.
- BlockWorkers.EngagedMeansOneWorker: one lease per run and block is a property assumed of the cluster side.
- TasksLoader.Interpreter.LoadTasksModule: a missing file or loader is not modelled (nothing is changed before those errors); a raised body and the two attribute checks are outcomes.
- ArrayRewrite.RewritesCommute: asks that neither key is a prefix of the other and that no line the scan takes for one array is a table header or opens the other key; otherwise the scan itself confuses them.
- TomlTable.RightExactlyWhenClear: multi-line strings, escapes in strings and quoted keys, entries inside inline tables, key arrays that hold anything but strings, and array lines that begin with a number or a bare word are not in the document model; nor is the entry of an array of tables a header reaches into.
- ScopedPyproject.RightOnTextExactly: the key's own array holds no odd line break; any other line may.
- ScopedPyproject.RenderReplacesTheNamedArrays: source and tests hold no double quote and no backslash, which the rewriter would write unescaped; the committed arguments are the strings of their array, and the closing parse check is left to the caller.
- Frontmatter and IndexSplice: the YAML block and the table are arbitrary texts; how they are composed is not modelled.
- RemoteReadAck.CandidateScopes: the file-level allowlist and the module-wide acknowledgement test are plain set lookups.
- DurableWrites.EveryWriteScannedOnce: definitions are listed in preorder, not in the breadth-first order of `ast.walk`; only the order of the findings differs, which `DurableWrites.LintFile` does not state.
- ImportBoundary.LintDirectional: one file; the findings are a map from line and role, their sorted order and message text are not modelled.
- SuggestTests.Suggest: the mirror and cross-consumer passes are given functions of the path; imports are given sets, so the script's own resolver of relative imports is not modelled.
- SuggestTests.ReverseSrcDeps: files that do not parse are absent from the given list.
- CancelRange.SameCancellation: job ids are plain words (no white space, `;`, `_`, `,` or bracket), as the schedulers issue them; any white space separates the words of a command, and how the two schedulers read one is modelled from their documented target grammar.
- SampleRotation.CollectSamples: a timing is an arbitrary reading per call; a runner that raises ends the collection and is not modelled.
- The cross-subject pass of `lint_subject_imports.py`, the prose lints, the registry generators and the scenario bodies: set comparisons, patterns and I/O without a further invariant.
- `read_jsonl`, the fixture builder and the local container: not part of this model.
