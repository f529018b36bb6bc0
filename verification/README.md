# BitBake's task engine

This project models the task engine of BitBake as it stands in `sources/poky/bitbake/lib/bb`, and
proves what the engine relies on: the preparation and execution of the run queue, the setscene pass
before it, the cascade that follows a recipe that cannot be built, and the datastore and signatures
beneath.

A task is a pair of a recipe file (with its multiconfig prefix) and a task name; `TaskIds.dfy` says for
which strings that is the same as the source's identifiers. A graph maps every task to the set of tasks
it depends on. Python sets and dictionaries are walked in any order, so every result holds for every
order. What the source updates in place is a class with the source's fields, proved against functions
and predicates over plain values; the recursive methods and loops are the source's own, sometimes with
an inner loop made a method of its own.

- `Graphs.dfy`, `Sequences.dfy`, `Tasks.dfy`, `TaskIds.dfy`: reachability, cycles, rankings; strings;
  task identifiers.
- `RecursiveDeps.dfy`, `Preparation.dfy`, `Weights.dfy`: resolving `recrdeptask`, marking, pruning,
  inverting, weighing.
- `Schedulers.dfy`, `TaskDepData.dfy`, `ExecutionLog.dfy`, `ExecuteTasks.dfy`: the executor. All it knows
  is tied to the sequence of events it fires; what a legal sequence means is proved separately, and
  holds in every reachable state because every public method keeps the invariant `Valid`.
- `CoveredSet.dfy`, `SceneCollapse.dfy`, `CollapseOrder.dfy`, `HardDeps.dfy`, `Scenequeue.dfy`: which tasks
  the setscene pass lets the queue skip, the order of setscene tasks, and their execution.
- `Build.dfy`: the setscene pass and the executor as one build.
- `StampCheck.dfy`, `Framing.dfy`: stamps with a shared cache; messages on byte streams.
- `FailCascade.dfy`: provider lists edited by nested calls while outer calls loop over them.
- `VariableDeps.dfy`, `Signatures.dfy`, `HashedTexts.dfy`, `TaskHashes.dfy`: dependencies of variables, the
  signature generator, what its hashes depend on, and hashing and dumping a whole queue with it.
- `DataStore.dfy`, `DataLayers.dfy`, `DataPromises.dfy`: the flat store and what reading means; the layered
  store with its shared lists, which refines it; what setting means for the next reader.

Workers are any answers in any order, stamp times a fixed map, hashing and the hooks of the metadata any
functions of their types. Verify everything with `dafny verify dfyconfig.toml`.

Some properties turned out not to hold of the code, and are stated with the exact condition instead:

- The first pass over the tasks does not look at those known not to be covered, so what is skipped can
  depend on the order of the tasks (`CoveredSet.OrderShows`); it does not exactly when every such task
  that is implied is covered, or has only covered dependants, to begin with (`CoveredSet.OrderShowsIff`).
- Which setscene tasks the collapse puts one after another depends on the order in which the starting
  points are processed (`CollapseOrder.OrderMatters`). Given that order it is exact
  (`SceneCollapse.Collapse`); what some order gives is told by the graph (`CollapseOrder.SomeOrderGives`),
  and so is when every order gives just the direct ancestors (`CollapseOrder.DirectOnlyIff`).
- A setscene task that was given up as lost can still be begun. It cannot when, for any two tasks that no
  wish keeps from beginning, the second of which is lost with the first, some of what the second asks for
  and loses was not skipped at the start (`Scenequeue.LostNeverBegins`); otherwise a run from the
  constructor shows it (`Scenequeue.BeginLost`). The run needs both tasks to come after setscene or skipped
  tasks only, which holds in every set-up whose wishes name setscene tasks only (`Scenequeue.AllGrounded`).
- The failure of a setscene task whose real work is not allowed should end everything. It does exactly when
  the call it comes in with finds something to do, which can be told before the failure: another worker
  busy, or a task with a free stamp that may start once what is lost is struck off
  (`Scenequeue.FailureThenCall`). Otherwise it is forgotten (`Scenequeue.ForgottenFailure`); over a whole run
  this can happen in the last turn only (`Scenequeue.RunScenequeue`).
- The override that wins is the one whose first mention in `OVERRIDES` comes last. It is the rightmost one
  with a variant exactly when no other with a variant is first mentioned after the first mention of that
  one (`DataStore.RightmostWins`, `DataStore.FirstMentionCounts`).
- A dumped task hash is not reproduced when a task without a stamp also has a taint file, when a taint
  file mentions `nostamp:`, or when such a taint is left over (`Signatures.DumpedTaint`,
  `TaskHashes.DumpSignatures`).
- A message whose payload holds its own closing tag is cut short (`Framing.RecoveredIffClean`).

## Model

| member | source | states |
|---|---|---|
| `TaskIds.PlainRoundTrip` | sources/poky/bitbake/lib/bb/runqueue.py:55-74 | without a multiconfig, splitting a built identifier gives the file and the task back if and only if the task name has no colon and the identifier does not start with `multiconfig:` |
| `TaskIds.MulticonfigRoundTrip` | sources/poky/bitbake/lib/bb/runqueue.py:55-74 | with a multiconfig, splitting gives all three parts back if and only if neither the multiconfig nor the task name has a colon |
| `RecursiveDeps.GenerateRecdeps` | sources/poky/bitbake/lib/bb/runqueue.py:611-622 | the recursion ends on cyclic graphs too; what it visits was reached by visiting from the task and is closed under visiting up to what had been seen, and exactly the siblings of what it visits are added |
| `RecursiveDeps.ResolveTask` | sources/poky/bitbake/lib/bb/runqueue.py:604-627 | a recursive task gets exactly its direct dependencies and the named siblings of every task in the least closed set around its roots, in whatever order sets are walked; a named task that does not exist is a key error, and nothing else is |
| `RecursiveDeps.VisitedIsLeast` | sources/poky/bitbake/lib/bb/runqueue.py:611-622 | the visited set holds the roots, is closed under the dependencies of visited tasks and of their siblings, and lies inside every other such set |
| `RecursiveDeps.VisitedByNames` | sources/poky/bitbake/lib/bb/runqueue.py:611-622 | what a visited task depends on is visited, and what those tasks of its recipe depend on that carry one of the names |
| `RecursiveDeps.ResolvedByNames` | sources/poky/bitbake/lib/bb/runqueue.py:604-627 | besides its direct dependencies a recursive task gets exactly the tasks that carry one of the names in the recipe of a visited task |
| `RecursiveDeps.ResolveRecursive` | sources/poky/bitbake/lib/bb/runqueue.py:600-645 | all recursive tasks are resolved against the unchanged graph before any result is installed, and self-referring tasks and self references are removed; fails exactly when some named task does not exist |
| `RecursiveDeps.FinalDependsClosed` | sources/poky/bitbake/lib/bb/runqueue.py:630-645 | the result is a graph over the same tasks in which no task depends on itself |
| `RecursiveDeps.FinalDependsAre` | sources/poky/bitbake/lib/bb/runqueue.py:630-645 | the final dependencies one by one: resolved where recursive, without the self-referring tasks and without the task itself |
| `Weights.CalculateTaskWeights` | sources/poky/bitbake/lib/bb/runqueue.py:384-442 | the sweep ends on every graph with exact inverse edges, and its problem tasks are exactly the tasks that lead to a cycle along the reverse edges; the others weigh what the weight equations say |
| `Weights.NoProblemsIffAcyclic` | sources/poky/bitbake/lib/bb/runqueue.py:429-440 | the list of problem tasks is empty if and only if the graph has no cycle |
| `Weights.WeightingUnique` | sources/poky/bitbake/lib/bb/runqueue.py:403-427 | the weight equations have one solution on an acyclic graph, so the order of the sweep does not show |
| `Weights.HeavierThanDependants` | sources/poky/bitbake/lib/bb/runqueue.py:403-427 | a task weighs strictly more than everything that waits for it |
| `Weights.WeightsPositive` | sources/poky/bitbake/lib/bb/runqueue.py:398-427 | every weight is at least one |
| `Weights.WeightOf` | sources/poky/bitbake/lib/bb/runqueue.py:398-427 | ten where nobody waits, and one more than whoever waits alone or in a pair |
| `Preparation.MarkTargets` | sources/poky/bitbake/lib/bb/runqueue.py:671-709 | marks exactly what is reached from the wanted targets (from their dependencies when the task name ends in `-`), and fails exactly when a wanted target names no task |
| `Preparation.TargetsByName` | sources/poky/bitbake/lib/bb/runqueue.py:671-709 | which targets are dropped, which task a target means, and that a trailing `-` asks for its dependencies only |
| `Preparation.MarkActive` | sources/poky/bitbake/lib/bb/runqueue.py:656-669 | the recursion ends on cyclic graphs and marks exactly what the task leads to outside what was marked already |
| `Preparation.PrunedIsClosed` | sources/poky/bitbake/lib/bb/runqueue.py:717-721 | pruning to what the targets need leaves a graph that still holds every dependency of what it keeps |
| `Preparation.InvertDepends` | sources/poky/bitbake/lib/bb/runqueue.py:742-745 | the reverse dependencies hold exactly the edges of the graph, turned round |
| `Preparation.FindEndpoints` | sources/poky/bitbake/lib/bb/runqueue.py:749-758 | lists the tasks nobody waits for, each once, unless two tasks wait for each other, and then names two that do |
| `TaskHashes.HashTasks` | sources/poky/bitbake/lib/bb/runqueue.py:936-949 | on an acyclic graph the passes end; every task is hashed once and after all it depends on, so the generator never misses the hash of a dependency, and in the end all that it recorded for every task stands: base hash, dependencies kept, checksums and taint |
| `TaskHashes.HashesUnique` | sources/poky/bitbake/lib/bb/runqueue.py:936-949 | the hash equations, with dropped dependencies, checksums and taints, have one solution on an acyclic graph, so the order of the passes does not show in the hashes |
| `TaskHashes.HashedFromInputs` | sources/poky/bitbake/lib/bb/runqueue.py:936-949 | each hash is that of the base hash, the hashes of the dependencies kept, the checksums and the taints |
| `TaskHashes.RunDepsAre` | sources/poky/bitbake/lib/bb/runqueue.py:936-949 | the dependencies that count are exactly those that are kept |
| `TaskHashes.Reparse` | sources/poky/bitbake/lib/bb/runqueue.py:1290-1298 | parsing the files again records every task's dependencies and works its base hash out anew |
| `TaskHashes.DumpTask` | sources/poky/bitbake/lib/bb/siggen.py:241-294 | the hashes worked out again from the dump of a task hashed at any time before: the base hash is always found again, and where it is the one in the parse cache the task hash is found again when the taint can be told, and, when no two texts have the same hash, only then; none comes out exactly when a checksum is missing |
| `TaskHashes.DumpSignatures` | sources/poky/bitbake/lib/bb/runqueue.py:1290-1302 | after all tasks have been hashed and their files parsed again, this holds for every task the files still have, and a missing checksum is all that stops the dump |
| `Preparation.RunQueueData.Prepare` | sources/poky/bitbake/lib/bb/runqueue.py:444-954 | the stages together: the queue is accepted if and only if all named tasks and targets exist, something is left to do and what is left has no cycle; then the graph is exactly what the targets reach in the resolved graph, with exact inverse edges, a weighting and hashes, and the signature generator holds what every task was hashed from |
| `Preparation.RunQueueData.WeighAndHash` | sources/poky/bitbake/lib/bb/runqueue.py:742-954 | from the inversion on, a closed graph is accepted if and only if it is acyclic |
| `Schedulers.SpeedPriorityMap` | sources/poky/bitbake/lib/bb/runqueue.py:199-211 | the list holds every task once, heavy before light, and among equals the later listed first |
| `Schedulers.PriorityMapUnique` | sources/poky/bitbake/lib/bb/runqueue.py:199-211 | there is only one such list |
| `Schedulers.DependenciesFirst` | sources/poky/bitbake/lib/bb/runqueue.py:186-211 | on an acyclic queue every dependency stands strictly before the tasks that need it |
| `Schedulers.CompletionPriorityMap` | sources/poky/bitbake/lib/bb/runqueue.py:229-243 | the in-place regrouping, with its deletions from the back, yields the recursive grouping by file of the speed list |
| `Schedulers.GroupedIsPermutation` | sources/poky/bitbake/lib/bb/runqueue.py:229-243 | grouping keeps every task exactly as often as it was there |
| `Schedulers.GroupedKeepsOrder` | sources/poky/bitbake/lib/bb/runqueue.py:229-243 | within one file the order of the speed list is kept |
| `Schedulers.GroupedContiguous` | sources/poky/bitbake/lib/bb/runqueue.py:229-243 | the tasks of one file stand together |
| `Schedulers.GroupedKeepsFileOrder` | sources/poky/bitbake/lib/bb/runqueue.py:229-243 | the files follow one another in the order of their first tasks in the speed list |
| `Schedulers.Scheduler.NextBuildableTask` | sources/poky/bitbake/lib/bb/runqueue.py:145-174 | drops what has started and picks, of the announced tasks whose stamp is free, the one the priority map lists first; none if and only if every such stamp is in use |
| `TaskDepData.BuildTaskdepdata` | sources/poky/bitbake/lib/bb/runqueue.py:1831-1849 | ends although a node may be queued in several rounds; its keys are exactly the reflexive-transitive dependencies of the task, and the task joins its own live set |
| `TaskDepData.ReachIgnoresSelfLoops` | sources/poky/bitbake/lib/bb/runqueue.py:1804-1809 | tasks added to their own live sets change nothing about what depends on what |
| `ExecutionLog.BeginsOnce` | sources/poky/bitbake/lib/bb/runqueue.py:1692-1809 | in every run no task starts or is skipped twice |
| `ExecutionLog.DependenciesEndFirst` | sources/poky/bitbake/lib/bb/runqueue.py:1654-1674 | in every run, when a task starts or is skipped, everything `prepare` made it depend on has completed or been skipped before |
| `ExecutionLog.QuiescenceExact` | sources/poky/bitbake/lib/bb/runqueue.py:1811-1829 | when nobody works and nothing can be offered, the finished tasks are exactly those with no failed task among their reflexive-transitive dependencies |
| `ExecutionLog.QuiescentWithoutFailure` | sources/poky/bitbake/lib/bb/runqueue.py:1819-1829 | and without failures every task has begun and finished |
| `ExecutionLog.OutcomeFromInputs` | sources/poky/bitbake/lib/bb/runqueue.py:1692-1829 | however a run went, what it is given tells which tasks are finished: those that depend on none, themselves included, that is neither skipped nor done without a worker and whose worker reports a failure |
| `ExecutionLog.FailedFromInputs` | sources/poky/bitbake/lib/bb/runqueue.py:1692-1829 | and which have failed: such tasks all of whose dependencies are finished |
| `ExecuteTasks.RunQueueExecuteTasks.constructor` | sources/poky/bitbake/lib/bb/runqueue.py:1527-1538 | a queue over a prepared graph starts with the tasks that depend on nothing and satisfies the invariant |
| `ExecuteTasks.RunQueueExecuteTasks.TaskCompleteOutright` | sources/poky/bitbake/lib/bb/runqueue.py:1654-1674 | completing a task announces exactly the tasks whose dependencies are now all complete |
| `ExecuteTasks.RunQueueExecuteTasks.TaskSkip` | sources/poky/bitbake/lib/bb/runqueue.py:1692-1698 | a skipped task counts as begun and complete at once, and the invariant is kept |
| `ExecuteTasks.RunQueueExecuteTasks.RunqueueProcessWaitpid` | sources/poky/bitbake/lib/bb/runqueue.py:1451-1462 | a reply in any order releases the stamp and completes or fails the task; a failure stops the queue only in abort mode; the invariant is kept |
| `ExecuteTasks.RunQueueExecuteTasks.Execute` | sources/poky/bitbake/lib/bb/runqueue.py:1700-1829 | one call skips, completes on the spot or sends the first offered task, or waits while somebody works, or stops with the exact outcome and none of the three "never" errors |
| `ExecuteTasks.RunQueueExecuteTasks.SendToWorker` | sources/poky/bitbake/lib/bb/runqueue.py:1783-1809 | the task is sent once, with data for exactly what it depends on, and its stamp is taken |
| `ExecuteTasks.RunQueueExecuteTasks.EnforceSetscene` | sources/poky/bitbake/lib/bb/runqueue.py:1705-1742 | when enforcement finds an unexpected task, all that can be offered is skipped and the queue is stopped |
| `ExecuteTasks.RunQueueExecuteTasks.Finish` | sources/poky/bitbake/lib/bb/runqueue.py:1811-1829 | when nothing is active and nothing is offered, the complete tasks are exactly those with no failed task among their dependencies, and without failures no task is missing |
| `ExecuteTasks.CountsAddUp` | sources/poky/bitbake/lib/bb/runqueue.py:76-107 | active, completed and failed tasks add up to the begun ones, and the active never exceed the limit |
| `ExecuteTasks.AllQuiet` | sources/poky/bitbake/lib/bb/runqueue.py:1811-1829 | with nobody working and every announced task begun, the sets of the executor say what the exact quiescence result says |
| `ExecuteTasks.StartTasks` | sources/poky/bitbake/lib/bb/runqueue.py:1527-1627 | what `prepare` leaves behind and either priority map are enough to start the executor; it holds what it was given, and its map is by weight, grouped by file for the completion scheduler; with the speed scheduler dependencies come first |
| `ExecuteTasks.RunToCompletion` | sources/poky/bitbake/lib/bb/runqueue.py:1700-1829 | without abort every run ends, whatever the workers answer and however many answers come in before each step, in the exact outcome; each of its events has its cause: only covered or current tasks are skipped and none of these is started, a task is started without a worker exactly when it does nothing, and a task that was sent fails exactly when its worker says so |
| `ExecuteTasks.RunAfterSetscene` | sources/poky/bitbake/lib/bb/runqueue.py:1534-1829 | from the tasks the setscene pass covered to the end of the run: every event has its cause, the complete tasks are exactly those that depend on no task a worker reports a failure for, the failed ones those reported whose dependencies are complete; what a started task depends on has ended before, and where it was to be skipped, the setscene pass itself had covered it |
| `Build.BuildAll` | sources/poky/bitbake/lib/bb/runqueue.py:1527-2239 | setting up and running the setscene pass and then the tasks it leaves: fatal exactly for a wish that cannot be met, stopped only after a forbidden failure, and otherwise ending in the exact outcome; all steps and events of both have their causes in what the build is given, what cannot be fetched is never sent, and what is skipped comes from what the pass covered |
| `FailCascade.TaskData.AddBuildTarget` | sources/poky/bitbake/lib/bb/taskdata.py:205-215 | a provider is listed once for a target, at the end |
| `FailCascade.TaskData.AddRuntimeTarget` | sources/poky/bitbake/lib/bb/taskdata.py:224-234 | a provider is listed once for a run-time target, at the end |
| `FailCascade.TaskData.GetDependees` | sources/poky/bitbake/lib/bb/taskdata.py:279-287 | exactly the files that depend on the target |
| `FailCascade.TaskData.GetRdependees` | sources/poky/bitbake/lib/bb/taskdata.py:289-297 | exactly the files that depend on the run-time target |
| `FailCascade.TaskData.FailFn` | sources/poky/bitbake/lib/bb/taskdata.py:437-459 | a possibly nested failure: purges the failed files from every list, records every emptied target and fails its dependees, and fails nothing outside any set closed under the cascade; without a raise no target it empties is a required one; ends on cyclic data |
| `FailCascade.TaskData.RemoveBuildTarget` | sources/poky/bitbake/lib/bb/taskdata.py:461-483 | records the target and fails every file that depends on it through `depids`, or whose task names it first in a pair of its `idepends` |
| `FailCascade.TaskData.RemoveRunTarget` | sources/poky/bitbake/lib/bb/taskdata.py:485-504 | records the target and fails every file that depends on it through `rdepids`, or whose task names it first in a pair of its `irdepends` |
| `FailCascade.TaskData.FailFile` | sources/poky/bitbake/lib/bb/taskdata.py:437-504 | the outermost call: exactly the least closed set of files fails, no failed file stays in a provider list, other providers keep their order; told by the lists and pairs alone, whoever lists an emptied target and whose task names it first in a pair has failed, and nobody else but the file itself; a raise means a required target was lost in abort mode, and without one no emptied target is required |
| `FailCascade.TaskData.LoseBuildTarget` | sources/poky/bitbake/lib/bb/taskdata.py:461-483 | the same when the cascade starts from a build target nothing provides: exactly the least closed set around its dependees fails, told by lists and pairs as well |
| `FailCascade.TaskData.LoseRunTarget` | sources/poky/bitbake/lib/bb/taskdata.py:485-504 | the same for a run-time target |
| `FailCascade.DoomedClosed` | sources/poky/bitbake/lib/bb/taskdata.py:437-504 | the set of doomed files is closed under failing: it holds the files it starts from and the dependees of every target it would empty |
| `FailCascade.BuildDependeesByPairs` | sources/poky/bitbake/lib/bb/taskdata.py:279-287 | who depends on a build target: exactly the files that list it and those of the tasks that name it as the target of a pair |
| `FailCascade.RunDependeesByPairs` | sources/poky/bitbake/lib/bb/taskdata.py:289-297 | the same for a run-time target |
| `FailCascade.WithoutInOrder` | sources/poky/bitbake/lib/bb/taskdata.py:450-459 | taking files out of a list leaves the others in their places |
| `CoveredSet.Saturate` | sources/poky/bitbake/lib/bb/runqueue.py:1534-1555 | both passes end, and for a given order of the tasks the result is one set: the least one that holds what the first pass found and every task that is not known to be uncovered and all of whose dependants are in it |
| `CoveredSet.SaturatedByDependants` | sources/poky/bitbake/lib/bb/runqueue.py:1534-1555 | besides what was covered, a task is in the result only when somebody waits for it and all who do are in it, and then always unless it is known to be uncovered |
| `CoveredSet.SaturationBounds` | sources/poky/bitbake/lib/bb/runqueue.py:1534-1555 | whatever the order, the result lies between the closure that leaves uncovered tasks out and the one that does not |
| `CoveredSet.SaturatedIsAll` | sources/poky/bitbake/lib/bb/runqueue.py:1534-1555 | with a given order it is the closure that leaves nothing out if and only if the first pass already found every task of it that is known to be uncovered |
| `CoveredSet.OrderShowsIff` | sources/poky/bitbake/lib/bb/runqueue.py:1534-1555 | on an acyclic queue the order of the tasks does not show if and only if every such task is covered or has only covered dependants to begin with |
| `CoveredSet.OrderShows` | sources/poky/bitbake/lib/bb/runqueue.py:1536-1555 | three tasks in a row of which the last may be skipped or not, depending on the order |
| `CoveredSet.RemoveCovered` | sources/poky/bitbake/lib/bb/runqueue.py:1590-1604 | takes back exactly the tasks asked for and the inferred tasks they lead to, none twice, and ends |
| `CoveredSet.TakenBackByEdges` | sources/poky/bitbake/lib/bb/runqueue.py:1590-1604 | taken back is what was asked for, and what was only inferred and a task that was taken back depends on |
| `CoveredSet.NoRunOnInferred` | sources/poky/bitbake/lib/bb/runqueue.py:1534-1604 | a task that runs depends on no task that is skipped by inference only |
| `CoveredSet.SkipSet` | sources/poky/bitbake/lib/bb/runqueue.py:1534-1604 | the whole computation: exactly what the passes found without what is taken back, whatever covered tasks the hook names, so that a covered dependency of a task that runs was covered to begin with |
| `SceneCollapse.CollectEndpoints` | sources/poky/bitbake/lib/bb/runqueue.py:1884-1898 | the sweep starts from the ordinary roots and from the dependencies of setscene tasks, marked with exactly the setscene tasks that depend on them |
| `SceneCollapse.ProcessEndpoints` | sources/poky/bitbake/lib/bb/runqueue.py:1902-1922 | on an acyclic graph the rounds end, and every mark handed on has come to rest or been passed on; what the first round entered is exactly what the order of its points says |
| `SceneCollapse.SpreadDone` | sources/poky/bitbake/lib/bb/runqueue.py:1902-1922 | after the rounds each setscene task holds exactly the marks that reach it, with no setscene task in between, from where they were given |
| `SceneCollapse.Collapse` | sources/poky/bitbake/lib/bb/runqueue.py:1880-1974 | the collapse of an acyclic queue never reaches the fatal error, and for a given order of the starting points each setscene task gets exactly its direct setscene ancestors and what depends itself on the setscene task that last entered an ordinary dependency from which it is reached |
| `SceneCollapse.DirectByPath` | sources/poky/bitbake/lib/bb/runqueue.py:1902-1922 | a direct ancestor is one with a way down to the task through ordinary tasks only |
| `CollapseOrder.SomeOrderGives` | sources/poky/bitbake/lib/bb/runqueue.py:1902-1922 | some order puts a setscene task after another if and only if that one is a direct ancestor or may get past a setscene task, which is a matter of the graph alone |
| `CollapseOrder.DirectOnlyIff` | sources/poky/bitbake/lib/bb/runqueue.py:1902-1922 | every order gives exactly the direct ancestors if and only if nothing else may get past a setscene task |
| `CollapseOrder.NoEdgesDirectOnly` | sources/poky/bitbake/lib/bb/runqueue.py:1902-1922 | that is so where no setscene task depends on another with nothing in between |
| `CollapseOrder.SoleDependantPasses` | sources/poky/bitbake/lib/bb/runqueue.py:1902-1922 | what depends on a setscene task is kept in every order by the setscene tasks reached from an ordinary dependency that only this task has |
| `CollapseOrder.LastDependantPasses` | sources/poky/bitbake/lib/bb/runqueue.py:1902-1922 | when only setscene tasks depend on an ordinary one, the one processed last enters it |
| `CollapseOrder.OrderMatters` | sources/poky/bitbake/lib/bb/runqueue.py:1902-1922 | six tasks for which the order of the starting points decides which of two ancestors is kept |
| `SceneCollapse.Unskippable` | sources/poky/bitbake/lib/bb/runqueue.py:1928-1962 | exactly the setscene tasks an ordinary root reaches through ordinary tasks only |
| `SceneCollapse.FromRootByPath` | sources/poky/bitbake/lib/bb/runqueue.py:1928-1962 | told by ways down from the ordinary roots |
| `HardDeps.ResolveHardDeps` | sources/poky/bitbake/lib/bb/runqueue.py:1981-2010 | a wish is fatal when the queue lacks the task, and an index error when its target lists no provider; nothing else stops it. Otherwise every wish is recorded, tasks asked for keep nothing but their own wishes, and the order of reading does not show |
| `HardDeps.WantedByIndex` | sources/poky/bitbake/lib/bb/runqueue.py:1986-1994 | a wish stands for the first provider of its target, with the task's name without the suffix, and is passed over when the target is not listed |
| `HardDeps.UnmetByIndex` | sources/poky/bitbake/lib/bb/runqueue.py:1986-1996 | which wishes cannot be met |
| `HardDeps.SuffixRemoved` | sources/poky/bitbake/lib/bb/runqueue.py:1994 | a suffix that stands nowhere else is all that is taken off a name |
| `HardDeps.SquashAcyclic` | sources/poky/bitbake/lib/bb/runqueue.py:1978-2010 | over an acyclic queue the resulting order of setscene tasks is acyclic if and only if the wishes are |
| `HardDeps.KeepingClosesCycle` | sources/poky/bitbake/lib/bb/runqueue.py:2003-2004 | without forgetting what the collapse gave, a wish alone can close a cycle |
| `Scenequeue.RunQueueExecuteScenequeue.constructor` | sources/poky/bitbake/lib/bb/runqueue.py:2019-2089 | tasks whose stamp is current or that do nothing are covered at once, those that cannot be fetched are to be given up, and the invariant holds |
| `Scenequeue.RunQueueExecuteScenequeue.UpdateCounters` | sources/poky/bitbake/lib/bb/runqueue.py:2091-2102 | the recursion ends when the wishes have no cycle; it strikes the task, and on failure all that asked for it directly or not, off exactly the waiting sets that did not ask for what is struck, and announces exactly the tasks left with nothing to wait for |
| `Scenequeue.RunQueueExecuteScenequeue.TaskSkip` | sources/poky/bitbake/lib/bb/runqueue.py:2144-2149 | a skipped task is covered and begun, and the invariant is kept |
| `Scenequeue.RunQueueExecuteScenequeue.TaskFailoutright` | sources/poky/bitbake/lib/bb/runqueue.py:2136-2142 | a task given up is not covered and begun, and the invariant is kept |
| `Scenequeue.RunQueueExecuteScenequeue.RunqueueProcessWaitpid` | sources/poky/bitbake/lib/bb/runqueue.py:2115-2134 | a reply in any order covers the task or not; a failure stops everything only for a task whose real work is not allowed |
| `Scenequeue.RunQueueExecuteScenequeue.Execute` | sources/poky/bitbake/lib/bb/runqueue.py:2151-2239 | one call takes the first task that may start and skips it as not needed, gives it up, skips it for its stamp or sends it, for exactly the stated reasons; a task is sent only when all it asked for is covered and all else it was put after is covered or lost; the call finishes, and the state goes on to the next phase, exactly when nobody was working and nothing could start |
| `Scenequeue.RunQueueExecuteScenequeue.EligibleIsSafe` | sources/poky/bitbake/lib/bb/runqueue.py:2161-2162 | whenever a task may start, all it asked for is covered and all else is covered, failed, or lost with something that failed |
| `Scenequeue.CoverStrikes` | sources/poky/bitbake/lib/bb/runqueue.py:2091-2102 | what is left to wait for after covering a task is what striking it off leaves |
| `Scenequeue.FailStrikes` | sources/poky/bitbake/lib/bb/runqueue.py:2091-2102 | what is left to wait for after a failure is what striking off everything lost with it leaves |
| `Scenequeue.TiedSend` | sources/poky/bitbake/lib/bb/runqueue.py:2212-2215 | sending keeps covered and uncovered disjoint, stamps apart and the active tasks within the limit |
| `Scenequeue.AllAccounted` | sources/poky/bitbake/lib/bb/runqueue.py:2219-2239 | with nobody working and nothing to start, every setscene task is covered, lost with something that failed, or waits for a task without a setscene variant |
| `Scenequeue.StartScenequeue` | sources/poky/bitbake/lib/bb/runqueue.py:1852-2089 | collapse, wishes and unskippable tasks together are enough to start the setscene pass when the wishes have no cycle; it stops exactly for a wish the queue cannot meet, and a task is put after exactly what it asked for and, unless something asked for it, what the collapse in the given order of its starting points gives it; where availability is checked, the tasks that are current are skipped at once, and exactly the others that cannot be fetched are to be given up |
| `Scenequeue.RunScenequeue` | sources/poky/bitbake/lib/bb/runqueue.py:2151-2239 | every run ends, whatever the workers answer and however many answers come in before each step, and accounts for every setscene task; what is covered, not covered and begun is exactly what its steps and the answers say, each step was taken for its reason, and nothing that cannot be fetched is sent; failures whose real work is not allowed come in during its last turn only, and stop it exactly when the call of that turn still found something to do |
| `Scenequeue.LostNeverRuns` | sources/poky/bitbake/lib/bb/runqueue.py:2091-2102 | in every reachable state, what is lost with a failed task has not begun if and only if no task skipped at the start is lost |
| `Scenequeue.SkippedNeverLost` | sources/poky/bitbake/lib/bb/runqueue.py:2019-2102 | that is so in every reachable state unless the set-up has a setscene task that was not skipped although all it asked for was, and that a skipped one asked for, directly or not |
| `Scenequeue.LoseSkipped` | sources/poky/bitbake/lib/bb/runqueue.py:2019-2239 | and where the set-up has one that comes after no task outside the setscene pass, some run loses a skipped task |
| `Scenequeue.LostNeverBegins` | sources/poky/bitbake/lib/bb/runqueue.py:2091-2102 | in every reachable state a lost task has not begun after the start, unless the set-up has two tasks such that all the second asks for and loses with the first was skipped at the start, and no wish keeps either from beginning |
| `Scenequeue.BeginLost` | sources/poky/bitbake/lib/bb/runqueue.py:2019-2239 | and where it has two that come after no task outside the setscene pass, some run gives the second up as lost and covers it all the same |
| `Scenequeue.FailOne` | sources/poky/bitbake/lib/bb/runqueue.py:2019-2239 | from the constructor to the end of a run in which exactly one chosen task fails |
| `Scenequeue.LostTaskMayStart` | sources/poky/bitbake/lib/bb/runqueue.py:2091-2102 | three tasks are enough for such a set-up |
| `Scenequeue.FailureThenCall` | sources/poky/bitbake/lib/bb/runqueue.py:2115-2239 | the failure of a task whose real work is not allowed and the call it comes in with stop the run if and only if another worker is busy or, once what is lost is struck off, some task with a free stamp may start |
| `Scenequeue.ForgottenFailure` | sources/poky/bitbake/lib/bb/runqueue.py:2115-2239 | one task is enough for the failure of a task whose real work is not allowed to be forgotten |
| `Scenequeue.CountsAddUp` | sources/poky/bitbake/lib/bb/runqueue.py:2124-2149 | active, completed and failed setscene tasks add up to the begun ones, within the limit |
| `StampCheck.StampChecker.CheckStampTask` | sources/poky/bitbake/lib/bb/runqueue.py:1090-1161 | with recursion the answer is whether all stamps the check leads to are sound, without it whether the task's own is; every cache entry is right before and after, for any sequence of calls |
| `StampCheck.RecursionIsCurrent` | sources/poky/bitbake/lib/bb/runqueue.py:1129-1161 | on an acyclic queue the written-out recursion without a cache has one solution, the same answer |
| `StampCheck.CurrentUnfolds` | sources/poky/bitbake/lib/bb/runqueue.py:1129-1161 | a task is current if and only if its own stamp is sound and all it goes on to are current |
| `StampCheck.SoundByTimes` | sources/poky/bitbake/lib/bb/runqueue.py:1109-1146 | when a stamp is sound, told by the times alone: it exists, is wanted, and no dependency that is compared lacks its stamp or has a newer one, unless a newer setscene stamp stands in |
| `StampCheck.FollowedByTimes` | sources/poky/bitbake/lib/bb/runqueue.py:1124-1154 | and which dependencies the check goes on to |
| `Framing.RunQueuePipe.Read` | sources/poky/bitbake/lib/bb/runqueue.py:2369-2399 | one read dispatches everything complete in what was left and what came in, in order, and keeps the rest |
| `Framing.DrainMore` | sources/poky/bitbake/lib/bb/runqueue.py:2369-2399 | draining, adding bytes and draining again is draining everything at once |
| `Framing.ReadAll` | sources/poky/bitbake/lib/bb/runqueue.py:2369-2399 | however a stream is cut, the reads together dispatch the messages of the whole stream in order and keep the same bytes |
| `Framing.EncodedAreRecovered` | sources/poky/bitbake/lib/bb/runqueue.py:2378-2398 | all messages whose payloads do not hold their own closing tag are recovered, in order, and nothing else |
| `Framing.RecoveredIffClean` | sources/poky/bitbake/lib/bb/runqueue.py:2378-2398 | a stream of messages comes through whole, with nothing left over, if and only if no payload holds its own closing tag |
| `Framing.TagsAre` | sources/poky/bitbake/lib/bb/runqueue.py:2378-2398 | the tags, as the source writes them |
| `Framing.FifoReader.ReadFifo` | sources/poky/bitbake/lib/bb/build.py:395-431 | hands over NUL-free segments that, with their NULs and what is kept, are the bytes received |
| `Framing.SegmentsUnique` | sources/poky/bitbake/lib/bb/build.py:398-431 | there is only one such cut |
| `Framing.ReadFifoAll` | sources/poky/bitbake/lib/bb/build.py:395-431 | however the stream is cut, the reads together hand over the segments of the whole |
| `VariableDeps.GenerateDependencies` | sources/poky/bitbake/lib/bb/data.py:420-444 | ends with an entry for exactly the variables met on the way from the tasks, each what the datastore says |
| `VariableDeps.FollowTask` | sources/poky/bitbake/lib/bb/data.py:431-442 | the rounds of one task end, and leave the entries closed under dependencies |
| `Signatures.CollectDeps` | sources/poky/bitbake/lib/bb/siggen.py:119-131 | a task's dependencies are exactly what lies ahead of it in the dependencies without the whitelisted variables, and the entries met are trimmed |
| `Signatures.SignatureGeneratorBasic.BuildData` | sources/poky/bitbake/lib/bb/siggen.py:102-147 | records that for every task of a file, with the base hash of the task's value and of the names and values of its dependencies; other files are untouched |
| `Signatures.SignatureGeneratorBasic.GetTaskhash` | sources/poky/bitbake/lib/bb/siggen.py:186-230 | fails exactly when a kept dependency has no hash; otherwise hashes the base hash, the dependencies' hashes, the checksums and the taints in this order, and records all of it |
| `Signatures.HashingKeepsOthers` | sources/poky/bitbake/lib/bb/siggen.py:186-230 | hashing a task leaves what is recorded for others true unless they depend on it |
| `Signatures.CalcBasehash` | sources/poky/bitbake/lib/bb/siggen.py:544-558 | hashes the dumped values in the order of the dumped dependencies |
| `Signatures.CalcTaskhash` | sources/poky/bitbake/lib/bb/siggen.py:560-576 | hashes the dumped data, and fails exactly when a dumped file has no checksum |
| `Signatures.SignatureGeneratorBasic.BasehashReproduced` | sources/poky/bitbake/lib/bb/siggen.py:241-288 | the dumped data misses no value, and gives the stored base hash back if and only if it was made of the values in hand |
| `Signatures.SignatureGeneratorBasic.TaskhashReproduced` | sources/poky/bitbake/lib/bb/siggen.py:271-294 | the dumped data gives the text of the stored task hash back if and only if no file lacks a checksum and the taints can be told apart |
| `Signatures.DumpedTaint` | sources/poky/bitbake/lib/bb/siggen.py:277-284 | the dumped taint, stripped, is the taint that was hashed if and only if a task without a stamp has no taint file, a taint file does not mention the marker, and no marker is left from before |
| `Signatures.DepsByReferences` | sources/poky/bitbake/lib/bb/siggen.py:119-131 | a task's dependencies are what it or one of them refers to, as far as it counts |
| `HashedTexts.ValueShows` | sources/poky/bitbake/lib/bb/siggen.py:113-136 | of two sets of values that differ at one variable, a task that depends on it, or is it, has the same base text exactly when that value reads the same |
| `HashedTexts.NameShows` | sources/poky/bitbake/lib/bb/siggen.py:133-136 | the name of a dependency shows in the base text, wherever it stands |
| `HashedTexts.BaseTextInOrder` | sources/poky/bitbake/lib/bb/siggen.py:113-136 | the order of the parts: value, then each dependency's name and value |
| `HashedTexts.BuildTwice` | sources/poky/bitbake/lib/bb/siggen.py:102-147 | taking a file in again with one value changed gives a task another base hash exactly when the value reads otherwise and is the task's own or that of a variable it depends on, the hash function being injective |
| `HashedTexts.DependencyShows` | sources/poky/bitbake/lib/bb/siggen.py:194-201 | another hash of a dependency gives another text to hash |
| `HashedTexts.ChecksumShows` | sources/poky/bitbake/lib/bb/siggen.py:203-211 | and so does another checksum of a file, wherever it stands |
| `HashedTexts.TaintShows` | sources/poky/bitbake/lib/bb/siggen.py:213-226 | and another taint of either kind |
| `HashedTexts.BaseShows` | sources/poky/bitbake/lib/bb/siggen.py:186-189 | and another base hash |
| `HashedTexts.TaskTextInOrder` | sources/poky/bitbake/lib/bb/siggen.py:186-230 | the order of the parts: base hash, hashes of dependencies, checksums, random taint, taint file |
| `HashedTexts.TaintRemembered` | sources/poky/bitbake/lib/bb/siggen.py:213-226 | a taint file that is not empty is remembered, or else the random taint with its marker, and no other task's taint changes |
| `HashedTexts.KeptInOrder` | sources/poky/bitbake/lib/bb/siggen.py:194-201 | of the dependencies exactly those that are kept count, in their order |
| `DataStore.ReduceBy` | sources/poky/bitbake/lib/bb/data_smart.py:683-692 | one override meets every variant there was once, in some order, cutting it down or taking it out as the match; it leaves nothing it could still meet unless it cut something down, and what is left to do shrinks |
| `DataStore.SelectVariant` | sources/poky/bitbake/lib/bb/data_smart.py:680-694 | the reduction ends, and finds what rounds over the overrides in the order of the list find once nothing is left to meet: the name of a variant in force; when no override in force has several words, that of the override whose first mention comes last |
| `DataStore.SetThenRead` | sources/poky/bitbake/lib/bb/data_smart.py:468-534 | after a plain value is set outside parsing, reading gives it back whatever variants, appends and prepends there were; only removals still apply |
| `DataStore.SelectedIsWinner` | sources/poky/bitbake/lib/bb/data_smart.py:680-694 | when the overrides in force are single words, nothing but the winner's variant can be selected |
| `DataStore.SingleWordOverride` | sources/poky/bitbake/lib/bb/data_smart.py:668-700 | then that variant supplies the value, and the variable's own counts only if it has none |
| `DataStore.RightmostWins` | sources/poky/bitbake/lib/bb/data_smart.py:680-694 | the rightmost override that has a variant wins if and only if, once it has been mentioned, no other that has one is mentioned for the first time; so it does when it is listed once |
| `DataStore.FirstMentionCounts` | sources/poky/bitbake/lib/bb/data_smart.py:680-694 | listed twice, the rightmost override need not win: an example in which another's variant is the only one that can be selected |
| `DataStore.SetVarKeepsLonger` | sources/poky/bitbake/lib/bb/data_smart.py:550-566 | every way of setting keeps variants longer than what they are variants of, which is why reading ends |
| `DataStore.SetPlainFacts` | sources/poky/bitbake/lib/bb/data_smart.py:504-531 | after setting, the variable has no variants and nothing to append or prepend |
| `DataPromises.KeywordName` | sources/poky/bitbake/lib/bb/data_smart.py:477-485 | a plain name with `_append`, `_prepend` or `_remove` after it, and an override or none, is read as just that |
| `DataPromises.AppendThenRead` | sources/poky/bitbake/lib/bb/data_smart.py:607-610 | after an append, reading gives what it could give before with the text at its end, a missing value counting as empty; under an override the text is added exactly when every word of the override is in the list |
| `DataPromises.PrependThenRead` | sources/poky/bitbake/lib/bb/data_smart.py:612-615 | after a prepend, the same with the text in front |
| `DataPromises.RemoveThenRead` | sources/poky/bitbake/lib/bb/data_smart.py:739-758 | after the first removal, reading gives what it could give before without these words |
| `DataPromises.RemovedWords` | sources/poky/bitbake/lib/bb/data_smart.py:755-757 | which leaves exactly the other words, with single blanks between them |
| `DataPromises.OverrideThenRead` | sources/poky/bitbake/lib/bb/data_smart.py:468-566 | a value set under an override is what the variable reads as when the override is in the list, and its own value when not |
| `DataPromises.SetWhileParsing` | sources/poky/bitbake/lib/bb/data_smart.py:504-531 | while files are parsed, setting a plain value leaves appends and prepends standing |
| `DataPromises.SetDeletesActive` | sources/poky/bitbake/lib/bb/data_smart.py:512-524 | afterwards it deletes exactly the variants in force and leaves all other variables as they were |
| `DataPromises.DeleteVariantThenRead` | sources/poky/bitbake/lib/bb/data_smart.py:617-641 | deleting its only variant gives a variable its own value back |
| `DataPromises.DeleteThenRead` | sources/poky/bitbake/lib/bb/data_smart.py:617-641 | a deleted variable reads as nothing, whatever variants it had |
| `DataPromises.DefaultThenRead` | sources/poky/bitbake/lib/bb/data_smart.py:696-700 | a default counts until the variable has a value of its own |
| `DataPromises.TwoWordOverride` | sources/poky/bitbake/lib/bb/data_smart.py:680-694 | a variant for two words that are both in the list, in whatever order, is selected |
| `DataPromises.ActiveIs` | sources/poky/bitbake/lib/bb/data_smart.py:672-678 | the variants in force are those whose override is in the list, or has all its words there |
| `DataPromises.BasesAre` | sources/poky/bitbake/lib/bb/data_smart.py:550-566 | a name is a variant of what stands before an underscore exactly when the text after it and after each later underscore is lower case |
| `DataPromises.AppendAndRead` | sources/poky/bitbake/lib/bb/data_smart.py:607-610 | appending through all the layers and reading it back |
| `DataPromises.PrependAndRead` | sources/poky/bitbake/lib/bb/data_smart.py:612-615 | prepending through all the layers and reading it back |
| `DataLayers.Layer.FindVar` | sources/poky/bitbake/lib/bb/data_smart.py:446-454 | lookup through any chain of layers equals lookup in the flattened store |
| `DataLayers.Layer.MakeShadowCopy` | sources/poky/bitbake/lib/bb/data_smart.py:456-465 | giving a variable a dictionary of its own changes no lookup of a variable that is there |
| `DataLayers.DataSmart.CreateCopy` | sources/poky/bitbake/lib/bb/data_smart.py:840-859 | a copy reads as its parent |
| `DataLayers.DataSmart.SetVar` | sources/poky/bitbake/lib/bb/data_smart.py:468-534 | acts on the flattened store as the flat operation does, writing only to the copy's own dictionaries |
| `DataLayers.DataSmart.DelVar` | sources/poky/bitbake/lib/bb/data_smart.py:617-641 | masks the variable in every layer below, and takes it off the lists it is a variant on |
| `DataLayers.DataSmart.SetVarFlag` | sources/poky/bitbake/lib/bb/data_smart.py:643-656 | acts on the flattened store as the flat operation does |
| `DataLayers.DataSmart.DelVarFlag` | sources/poky/bitbake/lib/bb/data_smart.py:761-775 | acts on the flattened store as the flat operation does |
| `DataLayers.DataSmart.SetvarUpdateOverrides` | sources/poky/bitbake/lib/bb/data_smart.py:550-566 | lists the name on exactly the lists of its shorter names, each made anew before it grows |
| `DataLayers.DataSmart.GetVar` | sources/poky/bitbake/lib/bb/data_smart.py:665-759 | the recursion over variants ends, and its value is one reading the flattened store may give |
| `DataLayers.WorkOnCopy` | sources/poky/bitbake/lib/bb/data_smart.py:840-859 | any sequence of operations on a copy acts as on a flat store that started as the parent's, and changes no lookup in the parent nor its lists of variants |
| `DataLayers.SetAndRead` | sources/poky/bitbake/lib/bb/data_smart.py:468-534 | through all the layers, a plain value that is set is what is read |

## Left out

- Scenequeue.RunQueueExecuteScenequeue.Execute: says covered or lost, not covered or failed, for what a task was put after without asking for it, because the code strikes off what is lost without marking it as failed.
- Scenequeue.StartScenequeue: requires wishes without a cycle; the source takes any in, and with a cycle the recursion after a failure would not end.
- Scenequeue.BeginLost: requires both tasks to come after no task outside the setscene pass, as does Scenequeue.LoseSkipped for its one; where a wish names a task without a setscene variant, which tasks a run can begin also depends on what else fails.
- Preparation.RunQueueData.Prepare: leaves out the fatal errors for two versions of one recipe and for invalidating a task without a stamp, and two providers of one name.
- TaskHashes.DumpTask: takes taint files to be as they were when the task was hashed; where the base hash found by parsing again is not the one in the parse cache, says nothing about the task hash.
- DataLayers.DataSmart.GetVar: says which values are possible and not which one it is when overrides in force have several words, because the order in which one override meets the variants is then the order of a dictionary.
- Signatures.SignatureGeneratorBasic.GetTaskhash: hashes are compared through the text that is hashed, since the hash function is a parameter.
- Direct dependencies of tasks (`prepare`, part A), the choice of providers and the flow around `add_unresolved`: they build the graph the model starts from.
- Multiconfig beyond the prefix of the file name.
- Worker processes, pipes, pickling, signals, lock files and the fakeroot worker that cannot be started; events and log messages, among them the lists of missing dependencies in the cascade and the reports of changed base hashes.
- Stopping early: `finish`, `finish_now` and abort mode after the first failure, beyond the change of state; the mirror list `build_stamps2`.
- The "basic" scheduler and the choice of a scheduler by name.
- `circular_depchains_handler`, `print_diffscenetasks`, `write_diffscenetasks`, multi-provider warnings: diagnostics.
- Expansion of `${...}`, the expansion cache, and the fixpoint that computes the list of overrides: the list is given and reads are unexpanded; what a removal expands to is a parameter.
- `__exportlist`, variable history, `renameVar`, appending to flags and flag sets; flags named like the keywords `_append`, `_prepend` and `_remove` hold lists and nothing else.
- The parsing and weak-default switches of `getVar`.
- Case is told for ASCII letters only, white space is blanks, tabs and line ends, and strings are not normalised.
- Interpretation of fifo messages once they are cut.
- Reading stamp files, wildcards and time stamps that cannot be read; the recursive check is only asked about a task's own name, as its callers do.
- The order of names in a task's list of variable dependencies is any fixed order, not the alphabetical one.
