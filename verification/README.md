# miq, verified

miq is a package manager: Lua text is evaluated into *units* (packages and
fetches), units name their dependencies by identifier, the identifiers are
resolved into a graph, and the graph is built by concurrent tasks that register
finished outputs in a database. This project models that path in Dafny and
proves what it is for: **from any store and with any rebuild flags, all successful
builds of a graph, whatever the job limit and the interleaving, even if cut short and
resumed with the same flags, end in one store, which the starting store and the flags
determine; it holds the content of a plain recursive build from scratch if and only
if every output the build kept was right at the start; and no run, finished or cut
short, registers an incomplete output.**

`dafny verify dfyconfig.toml` checks everything.

## The pieces

| file | what it models |
|---|---|
| `Paths.dfy` | finite paths over edge sets: reachability, acyclicity, search |
| `Units.dfy`, `Graphs.dfy` | units, identifiers and paths; the resolved graph |
| `Resolver.dfy` | `dag` and `add_children_recursive` on a mutable graph (src/eval.rs) |
| `Waves.dfy` | what one scan starts and how many rounds a run takes (src/build.rs) |
| `Database.dfy` | the table of registered paths and the files behind it (src/db.rs) |
| `Tasks.dfy` | one build task as atomic steps (src/build_package.rs, src/build_fetch.rs) |
| `Protocol.dfy` | the order of these steps: two protocols, where they fail and what they end with |
| `Scheduler.dfy` | `_main` as a machine whose runs are all interleavings, and its invariant |
| `Contents.dfy` | the store invariant, against the recursive from-scratch build |
| `Progress.dfy` | runs in which all tasks succeed: they never fail and can always be completed |
| `Guarantees.dfy` | what follows for every run: safety, results, failure, resumption |
| `Damage.dfy` | what a run can damage, and when it is safe to resume, told from graph, flags and store |
| `Witnesses.dfy` | concrete graphs and stores on which promises fail; an evaluation |
| `Build.dfy` | `_main` itself, imperative, each execution a run of the machine |
| `Template.dfy` | the template function `f` and `interpolate` (src/lua/f.lua, src/lua.rs) |
| `Evaluator.dfy` | `package`, `fetch` and `write_to_disk` (src/lua_package.rs, src/lua_fetch.rs, src/eval.rs) |
| `Pipeline.dfy` | the end-to-end statements |

Conventions of the model:

- What a build yields is a parameter, `produce`, of the unit and what it finds under the
  paths of its recorded dependencies. `Contents.Scratch` applies it recursively;
  `Contents.Expected` does so only where the run builds and keeps the rest as found.
- The answers of the outside world (failures, partial writes, number of output
  lines) are arbitrary values: `Event`s of a task, `*` and `:|` in the imperative code.
- `Scheduler.Action`s are the atomic moves of the program; `Scheduler.IsRun` are the
  sequences of states one action apart, and `Scheduler.RunsTo(cfg, w, s)` says that the
  state `s` occurs in a run that starts with the store `w`. A lemma about `RunsTo` speaks
  about every moment of every run, including one after which the process is cancelled.
- The dependencies of a unit are iterated in an arbitrary order, which includes the
  sorted order of the program.
- The fields `scans` and `made` of `Scheduler.Sys` only record history.

Where text and code of miq differ, the code is followed: the design document says
that the scheduler waits for any task (doc/_impl_builder.tex:203), the code drains
all of them after each scan (src/build.rs:157-184).

Five promises do not hold for all inputs; for each the exact condition and an
input that fails are proved.

- A graph is built only if its units times its rounds fit the sentry
  (`Guarantees.OutcomeIffRoundsFit`): 32 packages in a chain are refused from every
  store (`Witnesses.LongChainIsRefused`).
- A registered path is not looked at again, so the result is that of a build from
  scratch only if what is kept is right (`Guarantees.SuccessIsScratchBuildIff`,
  `Witnesses.WrongContentIsKept`).
- A registered path does not always have a complete output: the row is deleted after the
  files, so a removal that fails part-way leaves the damaged output registered. A sound
  path stays sound in all runs if and only if it is unregistered, not selected for
  rebuild, or its unit is not started before the sentry (`Damage.StaysSoundIff`;
  where the rounds fit every unit is started). A plain run that follows succeeds over the
  damage (`Witnesses.TornRemovalIsKept`). To resume with the same flags is always safe
  (`Damage.ResumedEqualsUninterrupted`), and so is any resumption of a run without flags
  (`Damage.PlainRunResumes`); otherwise the later run must select again what the first
  replaces (`Damage.ResumptionIsRightIff`, `Damage.SafeToResumeIff`).
- A balanced block is left as it stands only if no `{{` in it is followed by `}}`,
  because the inner match is not anchored (`Template.BlockKeptIff`): `{a {{x}} b}` becomes
  the value of `x` alone (`Template.BlockIsSwallowed`).
- The dependency list collected by `f` can be read back only if no interpolated table
  had an empty list (`Template.ReadableIffNothingSpoils`, `Template.EmptyListSpoils`).

## Model

| member | source | states |
|---|---|---|
| Resolver.Dag | src/eval.rs:154-178 | Succeeds exactly when everything below the root is present and nothing below it is on a cycle; the graph is then exactly the reachable units, once each, with exactly the dependency edges; every error has its evidence and the cycle guard never fires |
| Resolver.AddChildrenRecursive | src/eval.rs:181-227 | Terminates on any store; keeps the graph acyclic, rooted and sound with visited nodes closed under dependencies; the unvisited nodes are exactly the call stack; re-entering a visited node changes nothing |
| Resolver.LinkChild | src/eval.rs:196-217 | The child is found by unit equality or added; the edge is added unless the node was visited; refusal of the edge means a dependency cycle |
| Resolver.UnitNodeDag.AddEdge | src/eval.rs:211-214 | The edge is refused, without effect, exactly when its target already reaches its source |
| Paths.HasPathConnecting | src/eval.rs:213 | The cycle test behind `add_edge` decides reachability in both directions |
| Resolver.RootIsOnlySource | src/eval.rs:154-178 | The root reaches every node and is the only one without incoming edges |
| Resolver.ExactIsGood | src/eval.rs:180-227 | On a well-formed store that agrees with the root no two nodes share an output path and the edges out of a node are its recorded dependencies |
| Resolver.ToUnits | src/eval.rs:200-217 | Every path of the growing graph is a path of the stored dependency relation |
| Units.PathsInjective | src/eval.rs:279-309 | Distinct identifiers have distinct output files and distinct evaluation files |
| Units.PathsLieApart | src/eval.rs:276-309 | Outputs are `/miq/store/` and the identifier, evaluation files `/miq/eval/`, the identifier and `.toml`; no path is both |
| Waves.PickedExact | src/build.rs:82-155 | A scan starts a node exactly if it is ready and, for a package, fewer than the job limit of ready packages precede it |
| Waves.WaveSound | src/build.rs:102-120 | What a scan starts is unfinished, has only finished dependencies and contains at most the job limit of packages |
| Waves.WaveProgress | src/build.rs:78-155 | In an acyclic graph with at least one job every scan starts something until all is finished |
| Waves.ScanCountExists | src/build.rs:78-187 | With at least one job the number of rounds exists and is at most the number of units |
| Waves.ListSchedulingBound | src/build.rs:78-187 | With longest chain h, P packages and m jobs, max(h, ceil(P/m)) <= rounds <= h + floor(P/m) |
| Waves.LongestChainExists | src/build.rs:102-107 | An acyclic graph has a longest chain, with at most as many links as units |
| Waves.EnoughJobsByHeight | src/build.rs:102-120 | With a job per package, round k completes exactly the units whose longest chain has at most k links |
| Waves.EnoughJobsRounds | src/build.rs:78-187 | With a job per package the number of rounds is the longest chain |
| Waves.NoJobsNoPackages | src/build.rs:115-118 | With a job limit of zero no package ever finishes |
| Database.DbConnection.IsDbPath | src/db.rs:201-209 | Answers whether the path is registered |
| Database.DbConnection.Add | src/db.rs:159-183 | Registers the path, once, and changes nothing else; the table stays free of duplicates |
| Database.DbConnection.Remove | src/db.rs:185-198 | Deletes the files and then the row of the path, one row and no other; if the deletion fails, perhaps part-way, or the row cannot be deleted afterwards, the row stays over what is left |
| Database.DbConnection.CleanPath | src/build.rs:193-214 | Deletes the file or directory at the path; an absent path is no error; a failure may leave part of it; nothing else changes |
| Database.WithoutKeepsDistinct | src/db.rs:191-193 | Deleting a row keeps the table duplicate-free |
| Tasks.Advance | src/build_package.rs:41-168 | Each step of a task, done by single locked calls on the connection, has the effect of the specified step on its own path and none elsewhere |
| Tasks.TaskStepInv | src/build_package.rs:41-168 | Whatever the slot held, between any two steps a task that is past its check has its path unregistered unless finished, registers only the complete output, produces at most once and only if needed, and leaves a registered damaged path only by failing in the removal |
| Protocol.FailsIff | src/build_fetch.rs:24-76 | A step of a task fails exactly if its operation fails, its database call fails, or a script that ended well left no output |
| Protocol.EndsWellIff | src/build_package.rs:41-47 | A task ends well exactly by finding a registered path it may keep or by registering its output |
| Protocol.DeletionLeaves | src/db.rs:185-198 | A deletion removes all, nothing or a part of what is there, creates nothing, and the row goes last or stays |
| Protocol.WorkShows | src/build_fetch.rs:53-64 | While a task works and after it has failed at work its path shows what was last written, and its registration does not change |
| Protocol.GoesThrough | src/build_package.rs:41-168 | A task of either kind that is spared all failures ends well, in a number of steps that its start and its loop determine, with a new complete output registered if one was needed and everything as it was otherwise |
| Protocol.SilenceNeverEndsWell | src/build_package.rs:160-164 | Under any events, a package whose script never touches its output never ends well and is never registered |
| Protocol.NoOutputFails | src/build_package.rs:160-164 | An unregistered package whose script ends well in silence fails, unregistered and without a file |
| Scheduler.InputsAreFiles | src/build_package.rs:197-207 | A build finds exactly what is below the store paths of its recorded dependencies, finished or not |
| Scheduler.VisitPicks | src/build.rs:82-155 | One visit of the loop body keeps the running tasks equal to what the specification of the scan has picked so far |
| Scheduler.StartsExactly | src/build.rs:102-120 | The tests on children and job count start a unit exactly if the specification picks it |
| Scheduler.SchedReachable | src/build.rs:78-187 | In every run, whatever the tasks do, the finished and running units are those of the rounds completed and the sentry counts the visits |
| Contents.OutputIsExpected | src/build_package.rs:64-80 | A build whose dependencies are in place, built or kept, yields the output that a recursion over the graph determines from the starting store |
| Contents.ExpectedIsScratch | src/build_package.rs:41-80 | If every output the run keeps is right, what it is expected to leave everywhere is the recursive from-scratch build |
| Contents.InvReachable | src/build.rs:134-184 | In every state of every run from any store untouched, running and finished units each hold on disk and in the table what they should, and all other paths are as at the start |
| Guarantees.ScanStartsExactly | src/build.rs:82-155 | In any run, a completed scan is running exactly the ready fetches and the first ready packages up to the job limit |
| Guarantees.JobsBounded | src/build.rs:109-118 | Never more packages in building than the job limit; after every drain, the last included, none, and every unit has a status |
| Guarantees.SuccessRounds | src/build.rs:78-88 | A run that succeeds has taken exactly the number of rounds of the graph, within the sentry |
| Progress.SmoothNeverFails | src/build.rs:157-184 | A run in which every operation of every task goes through never returns a failed task |
| Progress.RunCompletes | src/build.rs:78-188 | From any state of such a run the run can be completed: `_main` is never stuck |
| Guarantees.OutcomeIffRoundsFit | src/build.rs:56-88 | When all tasks succeed, a returned run succeeded if and only if units times rounds is at most 1001 |
| Guarantees.OutcomeWithoutFailure | src/build.rs:56-88 | The same for any run that did not return a failed task, whatever its tasks met |
| Guarantees.SuccessIsReachable | src/build.rs:78-188 | From every store, a graph whose units times rounds are at most 1001 is built by some run in which all tasks succeed |
| Guarantees.SmallGraphsFit | src/build.rs:56-88 | When all tasks succeed, up to 31 units with at least one job are always built |
| Guarantees.LongChainsDoNotFit | src/build.rs:56-88 | A graph with a chain of 32 units is never built |
| Guarantees.NoJobsNoSuccess | src/build.rs:109-118 | With a job limit of zero a graph with a package is never built |
| Guarantees.NoJobsHitsSentry | src/build.rs:83-118 | When all tasks succeed such a run returns the error of the sentry |
| Guarantees.SuccessfulRunLength | src/build.rs:78-187 | The rounds of a successful run obey the list-scheduling bound |
| Guarantees.ScanStartsByHeight | src/build.rs:102-120 | With a job per package, scan k of any run starts exactly the units of height k |
| Guarantees.DependenciesFirst | src/build.rs:102-120 | From any store, while a unit is being built every transitive dependency is finished and registered with its expected content, complete unless it was incomplete and kept from the start |
| Guarantees.KindsAreKept | src/build_package.rs:64-164 | In every run only packages run a script and have its output looked for, and only fetches send a request and download |
| Guarantees.RunningAreIndependent | src/build.rs:120-141 | Tasks that run together do not depend on each other and use different paths |
| Guarantees.FinishedForGood | src/build.rs:174-175 | From any store, once finished a unit stays finished and registered with the same content to the end of the run |
| Guarantees.RightUnlessTorn | src/build_package.rs:41-53 | From a store whose registered units are right, in each state of each run a registered unit has its from-scratch content if and only if its removal was not torn |
| Guarantees.SoundUnlessTorn | src/build_fetch.rs:24-76 | In each state of each run a path that was sound at the start is registered without a complete output if and only if the removal of its old output failed part-way |
| Guarantees.FailureIsolated | src/build.rs:157-175 | After a failure no transitive dependent of the failed unit has been started |
| Guarantees.SuccessSettles | src/build.rs:78-187 | From any store, a successful run leaves every unit as expected, changes no other path, and produced each unit once if it was unregistered or selected for rebuild, otherwise never |
| Guarantees.SuccessIsScratchBuildIff | src/build.rs:78-187 | A successful run leaves the from-scratch content under every unit's path if and only if every unit it kept had that content at the start |
| Guarantees.ProducedExactly | src/build.rs:123-132 | A successful run produces each unit at most once: the unregistered ones, and with `--rebuild` the root only, else with `--rebuild-all` the packages |
| Guarantees.ProducedAtMostOnce | src/build.rs:120-184 | At every moment of every run, failed or cut short, no unit has been produced twice or without being unregistered or selected for rebuild |
| Guarantees.RoundsAreConfluent | src/build.rs:120-184 | From any store, after every drain, the last included, the whole state is the same in all runs, whatever the interleaving and completion order |
| Guarantees.ConcurrentEqualsInTurn | src/build.rs:157-184 | Whenever no task runs the store equals building the finished units one at a time in any order that respects dependencies |
| Guarantees.ResumedEqualsUninterruptedIff | src/build.rs:157-175 | A run cut short anywhere followed by a successful run, with any flags and job limits, ends in the store of an uninterrupted right run if and only if what the later run kept of the cut store was right |
| Guarantees.CutIsRightIff | src/db.rs:185-198 | From a right store, what a later run keeps of the cut store is right if and only if it selects every unit whose removal was torn |
| Damage.StartedIff | src/build.rs:82-155 | From any store, the units some run starts are exactly those that a round of the specification starts by a visit within the sentry |
| Damage.AllScheduledIfRoundsFit | src/build.rs:56-88 | If units times rounds are at most 1001, those are all units |
| Damage.TornWasReplaced | src/build_package.rs:41-47 | A unit whose removal was torn was registered at the start, selected for rebuild and started |
| Damage.StaysSoundIff | src/build_fetch.rs:24-34 | A sound path is sound at every moment of every run if and only if its unit is unregistered, not selected for rebuild, or never started |
| Damage.StaysSoundIffNotReplaced | src/build_package.rs:41-47 | Where the rounds fit: if and only if it is unregistered or not selected for rebuild |
| Damage.StaysRightIff | src/build_package.rs:41-53 | If what a run keeps is right, a unit is right whenever registered in all runs if and only if, where it would be replaced, it was right and is never started |
| Damage.CutsAreRightIff | src/build.rs:157-175 | A later run finds nothing wrong that it keeps, wherever the first was cut, if and only if every unit that only the first replaces was right and is never started |
| Damage.ResumptionIsRightIff | src/build.rs:157-175 | All successful resumptions of all cuts end in the from-scratch store if and only if that condition holds or the rounds of the later run do not fit |
| Damage.SafeToResumeIff | src/build.rs:123-132 | Where the rounds of the first run fit, the condition is that the later run selects every registered unit the first selected |
| Damage.PlainRunResumes | src/build.rs:157-175 | From a right store a cut run without rebuild flags followed by a successful run with any flags and jobs ends in the from-scratch store |
| Damage.ResumedEqualsUninterrupted | src/build.rs:157-175 | From any store, right or wrong, a run cut short anywhere and resumed with the same flags and any job limit until it succeeds ends in the store of an uninterrupted run |
| Guarantees.SecondRunChangesNothing | src/build_package.rs:41-47 | After a successful run, a run without rebuild flags never differs from the starting store and produces nothing |
| Guarantees.NothingToDo | src/build_fetch.rs:27-33 | With everything registered and nothing selected, no moment of a run changes the store |
| Guarantees.RecordedIsBuiltFirst | src/build.rs:102-120 | While a unit is being built each of its recorded dependencies is a finished child whose path is registered with its expected content, the from-scratch content if what is kept is right |
| Witnesses.ChainIsBuiltIff | src/build.rs:56-88 | When all tasks succeed, a chain of n packages is built, from any store and with any number of jobs but zero, if and only if n is at most 31 |
| Witnesses.LongChainIsRefused | src/build.rs:56-88 | A chain of 32 or more packages is never built, and a run in which all tasks succeed returns the error of the sentry |
| Witnesses.WrongContentIsKept | src/build_package.rs:41-47 | A registered package with other content is kept by a successful plain run |
| Witnesses.TornRemovalIsKept | src/db.rs:185-198 | A `--rebuild` that fails in the middle of a deletion leaves a damaged registered path, over which the plain run that follows succeeds |
| Witnesses.EvaluationExists | src/lua_package.rs:42-101 | A fetch and a package whose script interpolates it meet everything that is assumed of an evaluation |
| Build.BuildGraph | src/build.rs:59-189 | Always returns; fails to resolve exactly if the store is unresolvable, with the evidence, leaving the store alone; otherwise its result and final store are those of a run of the machine on the exact graph with the given flags. Packages being built never exceed `--max-jobs`, or else the number of CPUs; a reported unit has failed; without a failed task it succeeds if and only if units times rounds is at most 1001. After success exactly the unregistered units were produced and, of the others, with `--rebuild` the root alone, else with `--rebuild-all` the packages; every unit is as expected, which is the from-scratch content if and only if what was kept was right |
| Build.Execute | src/build.rs:78-188 | The loop of scans and drains ends by the sentry and is a run of the machine, with the matching outcome |
| Build.BuildRun.VisitNode | src/build.rs:83-154 | The body of the scan is one visit of the machine; it fails exactly as the sentry does and otherwise advances it by one |
| Build.BuildRun.Scan | src/build.rs:82-155 | The scan loop, with tasks progressing in between, is a sequence of visits of the machine and advances the sentry by the number of nodes |
| Build.BuildRun.Drain | src/build.rs:157-184 | The drain ends with all tasks collected or with the first failed one, in any completion order |
| Template.F | src/lua/f.lua:12-81 | Returns a value if and only if each hole the scan finds evaluates to a string, a unit or a table of identifiers; its text is the template with each hole replaced by exactly the text shown, its dependencies are those behind the holes from left to right; otherwise the error of the first hole that fails, and which of the two |
| Template.FMeans | src/lua/f.lua:50-80 | The same of the specification, and the result is a plain string exactly if nothing was collected |
| Template.TokensAreRight | src/lua/f.lua:19 | The scan loses nothing and cuts the text into the leftmost balanced blocks and the characters at which none begins |
| Template.BlockAtIff | src/lua/f.lua:19 | `%b{}` matches exactly the balanced block that begins at the position |
| Template.HoleIff | src/lua/f.lua:20 | The code of a block is exactly what lies between its first `{{` that has a `}}` after it and its last `}}` |
| Template.ScanUndoesPrint | src/lua/f.lua:19-26 | Scanning a printed template finds exactly its pieces in order |
| Template.FOnPrintedTemplate | src/lua/f.lua:19-80 | On a printed template text and literal blocks are kept, holes are replaced, and the dependencies are those of the holes in order |
| Template.HolePrinted | src/lua/f.lua:20 | The code of a printed hole is recovered whatever braces it has at its ends |
| Template.BlockKeptIff | src/lua/f.lua:20-26 | A block is kept for every environment if and only if no opening pair in it is followed by a closing pair |
| Template.HoleSwallowsBlock | src/lua/f.lua:19-26 | A block with a hole between two texts is replaced as a whole by the value of the hole: its braces and texts are lost |
| Template.BlockIsSwallowed | src/lua/f.lua:19-26 | A template of one such block, which becomes the value of its hole alone |
| Template.FRecordsSources | src/lua/f.lua:50-80 | The dependencies of a value made by `f` are exactly the units interpolated into it through any depth of nesting |
| Template.FShowsSources | src/lua/f.lua:50-72 | The text made by `f` contains the store path of every unit interpolated into it through any depth of nesting |
| Template.ReadableIffNothingSpoils | src/lua/f.lua:54-64 | The collected dependencies can be read back if and only if no interpolated table had an empty list |
| Template.EmptyListSpoils | src/lua/f.lua:54-64 | A template with a single hole for which the list cannot be read back |
| Template.InterpolateDeps | src/lua.rs:219-248 | Interpolating a readable value brings exactly its dependencies |
| Evaluator.Evaluator.PackageUnitOf | src/lua_package.rs:42-101 | Writes and returns that unit |
| Evaluator.CollectEnv | src/lua_package.rs:70-85 | The closure over the environment unwraps every value and adds exactly their dependencies |
| Evaluator.PackageRecords | src/lua_package.rs:42-101 | The unit of a package call has the name, version and hash of the call in its identifier, the dedented script and the environment values as written, whether plain or with dependencies, and each dependency of its texts and each explicit one, and no other |
| Evaluator.Evaluator.FetchUnitOf | src/lua_fetch.rs:22-44 | Writes and returns the unit named by the last URL segment, executable exactly if asked for, or nothing when there is no segment |
| Evaluator.FetchRecords | src/lua_fetch.rs:22-44 | The same of the specification, field by field |
| Evaluator.Evaluator.WriteToDisk | src/eval.rs:326-342 | The file begins with the schema line and the unit, and keeps the tail of a longer old file; no other file changes |
| Evaluator.OverwriteKeepsTail | src/eval.rs:331-339 | Position by position, the new text comes first and the tail of a longer old file stays |
| Evaluator.LastDashSplits | src/eval.rs:247-253 | The last dash of an identifier separates the name from the hash |
| Evaluator.RewriteChangesNothing | src/eval.rs:326-342 | Evaluating a call whose file exists leaves the directory as it is, although the file is opened without truncation |
| Evaluator.StoreIsExact | src/eval.rs:265-273 | The store of an evaluation holds each unit under its own identifier and nothing else |
| Evaluator.EvaluatedStoreResolves | src/lua_package.rs:42-101 | Any sequence of calls whose dependencies are earlier results leaves a well-formed store on which the solver succeeds for every unit |
| Pipeline.InterpolatedIsRecorded | src/lua_package.rs:49-96 | Every unit interpolated at any depth into a text of a package is in its dependencies |
| Pipeline.ReadTextShows | src/lua.rs:258-271 | A value is read as a text exactly if it is a string or a table with a proper list, and its text is what it shows |
| Pipeline.InterpolatedIsShown | src/lua_package.rs:70-85 | What a package records for an environment value contains the store path of every unit interpolated into it |
| Pipeline.InterpolatedIsInScript | src/lua_package.rs:62-87 | The recorded script is the dedent of a text that contains the store path of every unit interpolated into it |
| Pipeline.WrittenInOrderDependsInOrder | src/lua_package.rs:42-101 | If texts are strings or made by `f` from results of earlier calls, and explicit dependencies are such results, every recorded dependency is the identifier of an earlier result |
| Pipeline.NodeIsStored | src/eval.rs:154-178 | In the graph of an evaluation a node is the very unit of the store that has its identifier |
| Pipeline.InterpolatedIsBuiltFirst | src/build.rs:102-120 | While a package is being built every result of a call that was interpolated into its texts is itself a child in the graph, finished and registered with its expected content: complete if it was not kept incomplete, its from-scratch content if what is kept is right |
| Pipeline.EvaluatedGraphIsGood | src/eval.rs:154-178 | The graph of an evaluated store satisfies what the scheduler relies on |
| Pipeline.EvaluateAndBuild | src/build.rs:59-189 | Evaluating calls and building one of the results never fails to resolve; the graph is exactly that of the evaluation below the result, and flags, job limit, outcome, productions and final content are as for `BuildGraph` |

## Left out

- Sandboxing, mounts, in-memory applets (src/build_package.rs:86-131, src/mem_app.rs, src/busybox.rs): a build is one step that yields `produce` of its unit, or nothing, or a failure with arbitrary leftovers.
- What a script can read and write beyond its recorded direct dependencies and its own output: the whole of /miq/store is mounted writable in its sandbox (src/build_package.rs:197-207). Purity in the direct dependencies is assumed, as doc/_impl_builder.tex:45-50 intends, and a step of a task changes its own path only.
- DbConnection.CleanPath: symbolic links are not modelled. The test for existence follows links (src/build.rs:194), so a dangling link counts as absent and stays.
- HTTP, progress bars, log files, tracing and suggestions: no state depends on them; the bytes of a download are the `produce` of its unit.
- SQLite, TOML, mlua, textwrap and FNV: a list of rows, an abstract parser, Lua values, an arbitrary `dedent` and an arbitrary hash. Freedom from collisions among the calls of one evaluation is a hypothesis of `Evaluation`.
- Deserialising a Lua table into the fields of `miq.package` and `miq.fetch`: calls start from the typed inputs; only the reading of text values is modelled (`ReadText`).
- Panics of a spawned task (a poisoned lock, an unwrap) that reach `_main` as a join error (src/build.rs:157).
- A crash of the process between or inside the operations on one path, such as after the files and before the row in `DbConnection::remove`: a run can be cut after any step, but a step is one operation with its error returns.
- Manual `miq store add` and `rm` (src/db.rs:79-110): the store claims are about build runs.
- The file lock of src/main.rs:61-73: that one process runs at a time is assumed, not derived.
- Errors of reading or deserialising an evaluation file are one case with its absence: the store is the map of readable files.
- Lua evaluation of hole expressions and the lookup of local variables (src/lua/f.lua:28-47): an environment from code to values.
- The command line, graph output, schema generation and the vendored inspector: no properties of interest.
