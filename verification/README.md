# genroc in Dafny

genroc is a durable process orchestrator. A process definition is a list of tasks; an instance
works through it one database transaction at a time, calls services, waits for people or
timers, and spawns child processes, so that instances form trees. Workers lease instances, may
crash, and may have their leases taken over. Before a definition is accepted its expressions
are typed against JSON schemas, and so are the outputs of looping tasks.

This project models that behaviour and proves what its design relies on:

* **The process tree** (`ProcessTree`, `TreeSteps`, `TreeLaws`, `TreeDrain`, `TreeStore`, `TreeRetry`, `Batches`).
  Every transaction is a relation between table states; the code of the transactions is proved
  to be those relations; one invariant is kept by all of them, hence no lost wake-up, safe
  collection, exact draining of a cancelled tree and exact revival of a stopped one.
* **One advance** (`Advance`, `AdvanceProofs`, `AdvanceLaws`, `Visits`, `ErrorRules`). The engine's loop, its actions and
  error rules, tied to the tree by the theorem that every advance returns an outcome the tree
  steps cover; in-memory execution of call-less tasks refines one task per claim; what retries,
  timers, results and batches amount to over the advances of one visit to a task.
* **External results** (`Signals`). Arming, delivery, resolution, timeouts and crashes of one
  instance: nothing lost, nothing doubled, and exactly when first come is first served.
* **Static analysis** (`Availability*`, `EngineRuns`, `Tarjan`, `Fixpoint`, `RecursiveOutputs`). Dataflow
  over the task graph measured against its paths, and those against the runs of the engine;
  strongly connected components; the fixpoint of recursive output types.
* **Schemas** (`Schema`, `Conformance`, `Validator`, `Subset`, `SubsetExact`, `Canonical*`, `NodeOrder`,
  `Join`, `JoinTight`). The normalising validator against a keyword-by-keyword definition, the subset
  test, canonical forms and joins.
* **Expressions** (`Expression`, `EvaluationLaws`, `Inference*`, `Navigator`, `Membership*`, `TypeSoundness`,
  `TypedContexts`, `TypingGaps`). Inference is sound for evaluation; each side condition of that
  theorem has an input that breaks it; and it refuses and widens no more than it must.
* **Fast forms** (`LazyContext`, `LazyLaws`, `LazyEvaluator`, `Objects`, `JsonText`, `Pagination`, `CursorText`). Lazy loading of
  externalised values, content-addressed objects, keyset pagination.

Code that updates state is modelled as classes and loops proved against functions or relations;
the properties are lemmas about those. Where the code falls short of a property, a lemma gives
an input that shows it and another says when the property does hold.

Assumptions the code itself makes: the lease of a live advance does not run out (it is renewed;
a crashed worker's may expire), ids and tokens handed out are new, a sort key is unique and does
not change, and no two contents share a hash. The worker's clock, the network, the expression
parser, JSON text and SQL are parameters: functions for what a call, a timer, an expression or
the parser answers, and the meaning of a statement where SQL runs. Where such a parameter must
meet a condition, an order or a codec that meets it is given (`SomeOrder`, `SomeCodec`,
`SomeLossless`).

Where code and comments disagree the code is followed: task ids are documented as unique and
never checked (`DuplicateIdsDiverge`, `MixedKindsStray`); a recursive-output component with a single member is
said to converge in one pass and always needs a second (`Types.Pass`); an empty page reports no rows on either
side (`EmptyPageHidesRows`); only_once is protected on takeover only if the row stands at the
task (`TakeoverRepeatsCall`); the canonical form is said to be of the same type and drops bounds
(`BoundsAreFolded`); a log reference is said to extend an object's horizon and replaces it
(`NearerPromiseCuts`).

## Model

| member | source | states |
|---|---|---|
| `ProcessTree.WaitingIffActiveChild` | internal/db/db_lifecycle.go:10-93 | no lost wake-up in one state: an instance is waiting exactly when one of its children is not terminal |
| `ProcessTree.RunningParentHasHealthyChildren` | internal/db/db_lifecycle.go:95-183 | children of a running parent are running or completed, all completed once it is not waiting |
| `ProcessTree.CallStackIsPath` | internal/engine/engine.go:1453-1453 | a call stack is the chain of parents: each entry's own stack is the part before it |
| `ProcessTree.AncestorsWait` | internal/db/db_lifecycle.go:101-183 | every ancestor of an active instance is waiting and held by no worker |
| `ProcessTree.TerminalSubtree` | internal/db/db_lifecycle.go:221-252 | a terminal instance has only terminal descendants |
| `TreeSteps.NoLostWakeup` | internal/db/db_lifecycle.go:10-549 | on every run of create, claim, advance, spawn, finish, fail, cancel, retry, crash, takeover: waiting iff an active child, active children are the current task's batch, nothing active below a terminal |
| `TreeSteps.CollectingIsSafe` | internal/engine/collect.go:21-31 | whoever advances a collecting instance finds every child completed: the guard that would refuse to collect never fires |
| `TreeSteps.StepKeeps` | internal/db/db_lifecycle.go:25-549 | every transaction keeps the tree invariant, whatever the worker, the lease and the copy it was advancing |
| `TreeSteps.RunHolds` | internal/db/db_lifecycle.go:25-549 | the tree invariant holds after any number of transactions in any order |
| `TreeSteps.ClaimKeeps` | internal/db/db_claim.go:50-186 | claiming any set of claimable rows, taken over or not, keeps the invariant and gives copies that agree with their rows |
| `TreeSteps.RenewKeeps` | internal/db/gen/queries.sql.go:799-822 | renewing leases keeps the invariant |
| `TreeSteps.CheckpointKeeps` | internal/db/gen/queries.sql.go:927-958 | a running checkpoint keeps the invariant although a cancel may have reached the row meanwhile |
| `TreeSteps.RescheduleKeeps` | internal/db/gen/queries.sql.go:871-908 | a retry or error route, which writes its stale status over the row, still keeps the invariant |
| `TreeSteps.ParkKeeps` | internal/db/db_signals.go:88-110 | parking on an external task keeps the invariant |
| `TreeSteps.UnparkKeeps` | internal/db/gen/queries.sql.go:830-849 | storing an external result, by a resolver or by the arming advance, keeps the invariant |
| `TreeSteps.SettleKeeps` | internal/db/db_lifecycle.go:25-183 | a terminal save with its propagation to ancestors and the wake-up of the parent keeps the invariant |
| `TreeSteps.SpawnKeeps` | internal/db/db_lifecycle.go:479-549 | spawning a batch under a row whose status may have changed keeps the invariant |
| `TreeSteps.CancelKeeps` | internal/db/db_lifecycle.go:221-252 | cancelling a tree keeps the invariant |
| `TreeSteps.RetryKeeps` | internal/db/db_lifecycle.go:278-471 | reviving a stopped tree keeps the invariant |
| `TreeSteps.RevivedBatch` | internal/db/db_lifecycle.go:387-437 | a revived parent with a batch is waiting iff the batch has a revived member and collecting iff all of it had completed |
| `TreeSteps.RetryTreeSettled` | internal/db/db_lifecycle.go:278-289 | under a stopped root the whole tree is terminal, so no worker holds any of it when a retry rewrites it |
| `TreeDrain.SomethingRunnable` | internal/db/db_claim.go:76-84 | an active root has an active member below it that is not waiting; doomed and unleased it is claimable at once, timers ignored |
| `TreeDrain.RootEndsLast` | internal/db/db_lifecycle.go:25-183 | the root is terminal exactly when nothing in its tree is active |
| `TreeDrain.ReturnSettlesOne` | internal/engine/engine.go:473-480 | an advance of a doomed instance makes exactly that instance of the tree terminal |
| `TreeDrain.OtherEventsLeaveTree` | internal/db/db_lifecycle.go:25-549 | no other event, retry of the root apart, changes which members of a doomed tree are active |
| `TreeDrain.CancelDooms` | internal/db/db_lifecycle.go:221-252 | cancelling a tree no worker is advancing leaves every active member cancelling or failing |
| `TreeDrain.DrainIsExact` | internal/db/db_lifecycle.go:221-252 | with N active members the root of a cancelled tree is terminal after exactly N advances in it, whatever else is interleaved |
| `TreeDrain.CancelSurvives` | internal/db/gen/queries.sql.go:871-958 | a cancel that reaches a row during an advance survives the advance's write iff that write is a running checkpoint or the batch spawn |
| `TreeDrain.CancelCanBeLost` | internal/engine/engine.go:898-905 | a concrete run in which a concurrent cancel is lost to a retry |
| `TreeStore.Store.SaveInstance` | internal/db/db_instances.go:385-405 | insertion is the create step and keeps the invariant |
| `TreeStore.Store.ClaimInstances` | internal/db/db_claim.go:50-186 | the claim stamps at most the limit of claimable rows, all of them when fewer, and is the claim step |
| `TreeStore.Store.RenewWorkerLeases` | internal/db/db_claim.go:22-41 | the chunk loop ends, and has renewed exactly the worker's leases that expire sooner |
| `TreeStore.Store.RenewChunk` | internal/db/gen/queries.sql.go:799-822 | one chunk: at most the limit, none of its leases later than one left out |
| `TreeStore.Store.UpdateInstanceProgress` | internal/db/db_instances.go:437-464 | the checkpoint step, leaving status and error to whoever changed them |
| `TreeStore.Store.SaveUpdate` | internal/db/db_instances.go:407-427 | the full write of a retry or error route is the reschedule step |
| `TreeStore.Store.SaveAndNotify` | internal/engine/engine.go:1417-1425 | the three ways of saving a terminal instance are the one settle step |
| `TreeStore.Store.FinishChild` | internal/db/db_lifecycle.go:25-93 | save, count active siblings, wake the parent: the settle step for a completed or cancelled child |
| `TreeStore.Store.FailInstanceAndAncestors` | internal/db/db_lifecycle.go:101-183 | save, doom the ancestors, wake the parent: the settle step for a failed child |
| `TreeStore.Store.FailAncestors` | internal/db/gen/queries.sql.go:132-145 | the running and cancelling among the listed ancestors become failing with the error, others stay |
| `TreeStore.Store.CountActiveSiblings` | internal/db/gen/queries.sql.go:13-25 | zero exactly when the whole batch is terminal |
| `TreeStore.Store.SpawnChildrenAndWait` | internal/db/db_lifecycle.go:479-549 | refused unless the row has no wait state; else the spawn step, children inheriting the row's present status |
| `TreeStore.Store.Subtree` | internal/db/db_lifecycle.go:221-252 | the recursive walk down parents reaches exactly the rows whose call stack holds the root |
| `TreeStore.Store.CancelProcess` | internal/db/db_lifecycle.go:221-252 | accepted exactly for a root, and then the cancel step on its whole tree |
| `TreeLaws.LastChildWakes` | internal/db/gen/queries.sql.go:997-1002 | when a child ends its parent goes on waiting while any child is active; after the last one a running parent collects and a doomed one is left to settle |
| `TreeLaws.FailureDoomsAncestors` | internal/db/gen/queries.sql.go:132-145 | a failing child leaves every ancestor failing, with its error unless one was failing already, and nothing else of any other row but the parent's wait state changed |
| `TreeLaws.ReturnWrites` | internal/db/gen/queries.sql.go:871-958 | the write that ends an advance gives the lease back and stores task, count and timer; status and error stay with whoever changed them on a checkpoint, a spawn keeps the row's status |
| `TreeLaws.ChildrenStart` | internal/db/db_lifecycle.go:479-549 | a child starts at its definition's first task, untouched and unleased, below its parent and under the status its parent has then |
| `TreeLaws.ClaimableFrom` | internal/db/db_claim.go:60-80 | when a row may be claimed, by status, wait state, timer and lease |
| `TreeLaws.HeldByOne` | internal/db/db_claim.go:50-186 | on every run a claimed row was advanced by nobody, and the copy handed out is the row, marked iff some worker had held it |
| `TreeLaws.RenewalExtends` | internal/db/gen/queries.sql.go:799-822 | a renewal puts the worker's leases at the expiry or later, shortens none and touches nothing else |
| `TreeLaws.CancelMarks` | internal/db/db_lifecycle.go:221-252 | a cancel turns exactly the running members of the tree to cancelling and changes nothing else |
| `TreeLaws.RetryRevives` | internal/db/db_lifecycle.go:372-468 | a retry brings back exactly the stopped members: running, error cleared, task and attempts kept, a backoff timer dropped and a delay timer kept, waiting iff a child is active, collecting iff the batch of its task is over |
| `Batches.BatchIsCollected` | internal/db/db_lifecycle.go:10-93 | on every run, from a spawn until an advance of its own takes the row off the task, a running row waits iff a child is active and collects iff none is, and whoever advances it was given it to collect; cancels, failures, crashes and revivals included |
| `Batches.OneBatchPerVisit` | internal/engine/engine.go:1426-1514 | on every run of the tree one visit to a spawn task spawns one batch: later claims of the row there are to collect |
| `TreeRetry.RetryProcess` | internal/db/db_lifecycle.go:278-471 | accepted exactly when the root is stopped and, unless forced, no front task is a childless only_once; then exactly the retry step, otherwise nothing changes |
| `TreeRetry.NothingBlockedMeans` | internal/db/db_lifecycle.go:408-424 | an unforced retry is let through exactly when every stopped member is off its list, has a batch to go back to, or stands at a task of its definition that is not only_once |
| `TreeRetry.Revival.Revive` | internal/db/db_lifecycle.go:372-439 | the recursion marks exactly the stopped nodes below, each once, and fails exactly when one of them blocks |
| `TreeRetry.Revival.ReviveFront` | internal/db/db_lifecycle.go:387-424 | the wait state a revived node comes back with, from the members of its front batch |
| `TreeRetry.Revival.ReviveKids` | internal/db/db_lifecycle.go:389-407 | every stopped descendant of the batch is revived, and a member is active afterwards iff one had stopped |
| `TreeRetry.LoadBatches` | internal/db/db_lifecycle.go:311-333 | rows grouped by parent and spawn task, nothing missing and nothing foreign |
| `TreeRetry.WriteBack` | internal/db/db_lifecycle.go:444-468 | one update per revived node gives the revived tree and leaves the rest |
| `Advance.Instance.Advance` | internal/engine/engine.go:473-671 | the loop ends after at most 1001 tasks on any routing and does what the one-task semantics says, iterated |
| `Visits.ErrorEnds` | internal/engine/engine.go:883-932 | an error is retried exactly when the rule that catches it has budget left and may be used on this task; a retry changes count and timer alone, by the backoff of the new count; a route leads to the task the rule names with counters reset and the error recorded; otherwise the instance ends, completed iff the rule says so |
| `Visits.RetryBudget` | internal/engine/engine.go:883-932 | over any sequence of advances of one visit, parks and resumptions included, the count is the number of further attempts and never passes what the task's most generous rule allows |
| `Visits.OnlyOnceNotRepeated` | internal/engine/engine.go:853-861 | on an only_once task every attempt that another follows failed before the remote was reached, or under a rule that says so |
| `Visits.ValidatedRetries` | internal/model/definition.go:571-608 | on a validated task the budget of the rule that is found is all that decides on a retry |
| `Visits.ValidatedRoutes` | internal/model/definition.go:584-588 | on a validated task no error route is refused |
| `Visits.ChildrenOnce` | internal/engine/engine.go:1435-1514 | the spawn leaves the row at its task with counters reset, and an advance woken to collect goes on with the collected result or fails |
| `Visits.SpawnedOnce` | internal/engine/engine.go:1435-1514 | over any sequence of advances at a task a batch is spawned once, however often its collection fails and is revived |
| `Visits.OneResultPerArming` | internal/engine/engine.go:979-1032 | a task is parked under the token it was armed with and until its timeout; the advance that finds a result goes on with that result and keeps neither; the one that finds none gives the token up before the rules are asked |
| `Visits.ArmedOncePerAttempt` | internal/engine/engine.go:979-1032 | over any sequence of advances of one visit armings and timeouts alternate, so a task is armed at most once more than its rules allow further attempts |
| `Visits.DelayStampsOnce` | internal/engine/engine.go:948-960 | a delay checkpoints its deadline once; any later advance that finds it goes on, whatever clock and expression say |
| `Visits.CallAnswered` | internal/engine/engine.go:677-755 | an advance makes at most one call and leaves the task with what that call was answered with; a request that cannot be built fails without asking the rules |
| `Visits.LeavesCleanly` | internal/engine/engine.go:602-658 | a task is left for the next or the first of a name, counters reset, nothing written but its own output, which is what its projection gives; otherwise the instance ends where it stands |
| `Visits.ValidatedLeaves` | internal/model/definition.go:541-570 | under a validated switch a task is left for a listed one or completes the process, unless an expression fails |
| `Advance.Instance.EvalSwitch` | internal/engine/engine.go:796-810 | the target of the first case whose condition is empty or true, every test before it false; the error of the first test that fails before one; nothing when all are false |
| `AdvanceLaws.SwitchTakesFirst` | internal/engine/engine.go:796-810 | the i-th case is taken exactly when it is the first with no condition or a true one, and a switch has one answer |
| `AdvanceLaws.LeavesWithItsAnswer` | internal/engine/engine.go:535-600 | a task is left with its action's answer, its previous being what the task itself put out the last time round |
| `AdvanceLaws.OneActionPerAdvance` | internal/engine/engine.go:535-670 | an advance claimed at a task with an action of any kind ends with it: where the action halts, or checkpointed behind the task |
| `AdvanceLaws.FirstPosition` | internal/engine/engine.go:814-826 | a name leads to the first task that has it, to none exactly when no task does |
| `AdvanceLaws.ActionsElse` | internal/engine/engine.go:948-1032 | without an action a task goes on with nothing; an arming that finds a buffered result goes on with it; what cannot be armed, timed or spawned fails the instance, outputs kept |
| `AdvanceLaws.LeavesByTheSwitch` | internal/engine/engine.go:602-658 | a task is left with its own output stored and listed once, for where the switch leads on the data with it: the next task, the first of a name or the end; it fails where the switch is silent or the name unknown |
| `AdvanceLaws.CompletesWithOutput` | internal/engine/engine.go:1660-1676 | an advance that completes the process by its tasks stores what the output expression gives on the final data, if there is one |
| `AdvanceLaws.DoomedSettle` | internal/engine/engine.go:1388-1415 | a failing instance settles failed with the error it had, a cancelling one cancelled with its delay timer but without a retry timer, whatever the definition and the world |
| `AdvanceLaws.StuckFails` | internal/engine/engine.go:482-526 | without its definition or its task, or taken over in an only_once task, an instance fails where it stands, data untouched |
| `AdvanceLaws.RetryUndoesCancel` | internal/db/db_lifecycle.go:426-437 | a cancelled instance without a batch is back where it was after a retry of its root: same task, attempts and data, and its timer unless that was a backoff |
| `AdvanceProofs.AdvanceMayReturn` | internal/engine/engine.go:417-446 | an advance of a claimed instance ends in an outcome the tree steps are proved for exactly when the id it spawns or parks at names, first, a task of that kind; always so when no two kinds share an id |
| `AdvanceProofs.MixedKindsStray` | internal/engine/engine.go:814-833 | a routing task and a spawn task of one id: the batch is spawned and the row left standing at the other task |
| `AdvanceProofs.ReloadLands` | internal/engine/engine.go:814-833 | a reload lands where the in-memory advance stands exactly when the task moved to is the first of its id |
| `AdvanceProofs.FallingToFirsts` | internal/engine/engine.go:643-651 | a goto by name leads to a first, so only falling through to a later namesake can part the two |
| `AdvanceProofs.InlineIsStepwise` | internal/engine/engine.go:535-670 | an advance through k call-less tasks ends with the same task, context, status and error as k one-task advances with a reload after each, and one more, k as large as the limit and the tasks allow, whenever each task moved to is the first of its id |
| `AdvanceProofs.DuplicateIdsDiverge` | internal/engine/engine.go:814-833 | with two tasks of one id, which nothing rejects, the two differ: the reload goes back to the first for ever |
| `AdvanceProofs.TakeoverRepeatsCall` | internal/engine/engine.go:515-526 | the advance that takes over an expired lease makes an only_once call again iff the row was not standing at that task, and otherwise fails the row where it stands |
| `ErrorRules.SqlLikeMatch` | internal/model/definition.go:645-672 | true exactly when the string splits into pieces that the pattern's characters stand for |
| `ErrorRules.PatternOnlyMatchesPre` | internal/model/definition.go:632-643 | true exactly when every string the pattern matches starts with pre. |
| `ErrorRules.MatchOnError` | internal/engine/engine.go:865-878 | the first rule that catches the code, if any does |
| `ErrorRules.ValidateOnError` | internal/model/definition.go:571-608 | accepted exactly when each rule is well placed and, on an only_once task, catches only codes it may retry |
| `ErrorRules.RetriesAreAllowed` | internal/engine/engine.go:853-861 | on a validated task the rule found for any code never has its retries withheld |
| `Signals.NothingLostOrDoubled` | internal/db/db_signals.go:12-190 | on every run of deliver, resolve, claim, take, timeout, arm, persist, crash, cancel, retry each accepted result is exactly one of buffered, pending, consumed |
| `Signals.OneResultPerToken` | internal/db/db_external.go:51-66 | at most one result is ever accepted for an arming token |
| `Signals.SubmissionGoes` | internal/db/db_signals.go:118-190 | a submission is taken by a running instance only: to the row when the task named, or the token, is parked and idle there, and the row can then be claimed at once; by task into the queue otherwise; a stale token is refused |
| `Signals.StepKeeps` | internal/db/db_signals.go:29-190 | every one of these steps keeps queue, row, copy and tokens consistent |
| `Signals.FirstComeFirstServed` | internal/db/db_signals.go:29-86 | queue keys growing, results reach each task in the order they were accepted, on a whole run, exactly when every direct answer found nothing buffered for its task |
| `Signals.AnsweredInOrder` | internal/db/db_signals.go:150-175 | the guard for one step: a direct answer keeps the order iff nothing is buffered for the task |
| `Signals.CalmIsGuarded` | internal/db/db_signals.go:29-190 | a run in which no crash strikes a parked row meets that guard throughout |
| `Signals.OvertakenAfterCrash` | internal/db/db_signals.go:150-175 | a concrete run in which a direct delivery after a crash overtakes a buffered one |
| `Signals.ExternalStore.ArmExternalOrConsumeSignal` | internal/db/db_signals.go:29-111 | consumes the oldest buffered signal and keeps the lease iff there is one, else parks under a new token and releases it |
| `Signals.ExternalStore.PopOldest` | internal/db/gen/queries.sql.go:745-762 | the signal of the task that is first by creation time and id |
| `Signals.ExternalStore.DeliverSignal` | internal/db/db_signals.go:118-190 | answered at once, buffered or refused exactly by status, parking and live lease |
| `Signals.ExternalStore.ResolveExternalTask` | internal/db/db_external.go:67-124 | accepted exactly for a running, parked, unleased row under its present token; otherwise nothing changes |
| `Tarjan.TarjanScc` | internal/validation/outputorder.go:138-184 | a partition of what the nodes reach into the classes of mutual reachability, each edge between classes leading to one emitted before |
| `Tarjan.SccFinder.StrongConnect` | internal/validation/outputorder.go:148-178 | one depth-first call: low is the least index reached, the component is popped exactly at its root |
| `Tarjan.ReferencesComeFirst` | internal/validation/outputorder.go:68-69 | any chain of references out of a component ends in it or in one inferred earlier |
| `Tarjan.ComponentsUnique` | internal/validation/outputorder.go:138-184 | the components depend on the graph alone |
| `Fixpoint.Types.InferOutputFixpoint` | internal/validation/outputorder.go:87-136 | on success inferring any member again, its component read nullable, adds nothing to its accepted type; other definitions stay; outputs that read no member are accepted with their own types |
| `Fixpoint.Types.InferOutputs` | internal/validation/outputorder.go:18-85 | over all components in dependency order every final type absorbs its re-inference against the final definitions |
| `Fixpoint.OutputsStayTyped` | internal/validation/outputorder.go:87-93 | with sound inference, after any number of loop iterations every output is in its accepted type |
| `RecursiveOutputs.ShapesAreSound` | internal/validation/infer.go:118-155 | a shape of templates evaluates to a value of its inferred type, unless one of its templates fails |
| `RecursiveOutputs.MapsAreSound` | internal/validation/outputorder.go:69-85 | an output map, entered with the outputs listed for its task, evaluates to a value of its inferred type, or one of its templates fails |
| `RecursiveOutputs.RecursiveOutputsStayTyped` | internal/validation/outputorder.go:87-93 | outputs that are shapes over each other, over self and over results that differ each time stay in their accepted types over any number of iterations |
| `Fixpoint.Types.Pass` | internal/validation/outputorder.go:100-130 | one pass keeps the estimates canonical, is stable only if every member absorbed its re-inference, and is never so the first time |
| `Availability.MustIsExact` | internal/validation/context.go:219-292 | an output is required at a task iff every run that enters the task has produced it, under the code's edge rules |
| `Availability.RequiredIsProduced` | internal/validation/context.go:219-292 | whatever solves the must equations has been produced on every run |
| `Availability.NotRequiredIsMissing` | internal/validation/context.go:219-292 | for an output not required there is a run that arrives without it |
| `Availability.MayIsExact` | internal/validation/context.go:294-328 | the may analysis lists exactly what some run keeps, an error route of a task taking its own output back |
| `Availability.MayMeetsRuns` | internal/validation/context.go:294-328 | an output is listed wherever some run really holds it exactly when, for its task, every error route taken with that output at hand leads to where it is listed anyway |
| `Availability.OwnBitClearedTooEagerly` | internal/validation/context.go:307-311 | a looping task that fails: its earlier output is there but not listed |
| `Availability.MustErrIsExact` | internal/validation/context.go:330-358 | mustErr holds iff every run has set the error and no cycle of normal edges leads to the task by normal edges |
| `Availability.MustErrMissesLoops` | internal/validation/context.go:330-358 | a handler looping on itself is entered only with the error set, which mustErr does not say |
| `Availability.MayErrIsExact` | internal/validation/context.go:360-380 | mayErr holds iff some run arrives with the error set |
| `AvailabilityLoops.BuildPreds` | internal/validation/context.go:142-178 | the predecessor lists hold exactly the routes of the switch cases, the fall-through and the error rules |
| `AvailabilityLoops.MustMatrix` | internal/validation/context.go:253-292 | the loop ends in a solution all of whose cleared bits are witnessed by runs |
| `AvailabilityLoops.MayMatrix` | internal/validation/context.go:294-328 | the loop ends in a solution all of whose set bits are witnessed by runs |
| `AvailabilityLoops.MustErrs` | internal/validation/context.go:330-358 | the least solution for the error being set for sure |
| `AvailabilityLoops.MayErrs` | internal/validation/context.go:360-380 | the solution for the error being possibly set, witnessed by runs |
| `AvailabilityLoops.CheckReachability` | internal/validation/context.go:180-213 | accepted exactly when some run enters every task |
| `AvailabilityLoops.ComputeContextSets` | internal/validation/context.go:215-430 | with distinct ids and reachable tasks the four tables say of each task exactly what its runs provide |
| `AvailabilityEnd.OutputContextSets` | internal/validation/context.go:25-140 | required at the end iff produced on every run that ends; the error is listed iff some run ends with it, and required iff all do and no task that can end normally has a cycle of normal edges behind it; nothing is listed when no task ends the process |
| `AvailabilityEnd.MustLeaveIsExact` | internal/validation/context.go:43-60 | what leaving a task by a given way has for sure, in terms of the runs that end there |
| `EngineRuns.EntriesTrack` | internal/engine/engine.go:548-670 | whenever any claim of a run enters a task, crashes, retries, parks, spawns and revivals before it, the instance has taken a path of the graph there and stored what that path produced; before a revival nothing else |
| `EngineRuns.EdgesAreRoutes` | internal/validation/context.go:142-178 | the task graph has an edge exactly where a switch case or an error rule of the engine leads, and an entry at the first task |
| `EngineRuns.EndsAreRoutes` | internal/validation/context.go:25-42 | a run of the graph ends the process exactly where a case, or after an error a rule, of the engine leads to the end |
| `EngineRuns.ContextSets` | internal/validation/context.go:215-430 | for a validated definition with distinct ids and reachable tasks: on every engine run an instance that enters a task holds every output the computed tables require there, and the error value if mustErr says so |
| `EngineRuns.RequiredArePresent` | internal/validation/context.go:215-430 | the same for any tables that are exact in terms of the graph |
| `EngineRuns.PresentAreListed` | internal/validation/context.go:294-380 | until a stopped instance is revived, a task is entered with an error value only if mayErr says so, and with an output only if it is listed, that output's error routes being covered |
| `EngineRuns.EndHoldsRequired` | internal/validation/context.go:25-140 | a process that completes holds every output required at its end, and the error value if that is required |
| `EngineRuns.DuplicateIdsMislead` | internal/validation/context.go:219-225 | two tasks of one id, an output required at the second: an instance starts at the first under that id without it, so no table keyed by ids is right for both |
| `EngineRuns.RevivalLeavesError` | internal/db/db_lifecycle.go:444-468 | a revived instance enters its task with the error value of its failure although mayErr says it cannot be there |
| `Validator.ConformNode` | internal/schema/validate.go:40-90 | the recursive validator computes the normal form, or refusal, of the declarative definition |
| `Validator.ConformFields` | internal/schema/validate.go:92-118 | undeclared keys dropped, defaults filled, every refusal found, in any order of properties |
| `Validator.ConformItems` | internal/schema/validate.go:120-137 | item counts and every element |
| `Validator.ConformUnion` | internal/schema/validate.go:139-169 | anyOf gives the first match, oneOf succeeds iff exactly one branch matches |
| `Conformance.ConformIsNormalForm` | internal/schema/validate.go:44-233 | validation makes w of v exactly when w is its normal form: types, enumerated values, bounds, lengths and counts met at every depth, the first or only variant of a union taken |
| `Conformance.AcceptedMeets` | internal/schema/validate.go:12-27 | what validation lets through meets the schema at every depth as it is, given scalar enumerations and fitting defaults |
| `Conformance.ScalarsExactly` | internal/schema/validate.go:171-233 | a scalar comes out unchanged iff it is of a listed type, among the enumerated values and within the bounds |
| `Conformance.ObjectsExactly` | internal/schema/validate.go:92-118 | an object is accepted iff its own keywords admit it, its declared properties are accepted and nothing required is missing; no other key comes out, a present property keeps its own value over any default, an absent one gets the default |
| `Subset.SubsetSound` | internal/schema/subset.go:32-149 | for normalised schemas: if check holds, whatever the sub schema lets through the super schema accepts, on the stated fragment |
| `Subset.ApartIsExclusive` | internal/schema/subset.go:86-97 | variants with disjoint type lists exclude each other, so oneOf may stand in the super schema |
| `Subset.SuperSideNeeded` | internal/schema/subset.go:86-97 | normalised input on which check holds and acceptance fails: item counts are never compared, and a super oneOf is read as at-least-one |
| `Subset.UntypedSub` | internal/schema/subset.go:109-119 | normalised input on which check holds and acceptance fails: an untyped sub node lets objects through unpruned |
| `Subset.RequiredUndeclared` | internal/schema/subset.go:162-192 | normalised input on which check holds and acceptance fails: required but undeclared keys are dropped by normalisation |
| `Subset.DefaultUnchecked` | internal/schema/subset.go:162-192 | normalised input on which check holds and acceptance fails: defaults are not compared |
| `Subset.ObjectEnum` | internal/schema/subset.go:232-249 | normalised input on which check holds and acceptance fails: an enum of objects is tested before pruning |
| `SubsetExact.SubsetExactly` | internal/schema/subset.go:32-149 | on union-free nodes of one type each, check holds iff no value that comes out of the sub schema is refused by the super schema |
| `SubsetExact.NoHasReason` | internal/schema/subset.go:32-230 | every refusal comes with a value the sub schema accepts and the super schema does not |
| `SubsetExact.EnumsExactly` | internal/schema/subset.go:232-249 | enumerations of scalars of one type: check holds iff no accepted value is refused |
| `SubsetExact.CheckReflexive` | internal/schema/subset.go:32-149 | every normalised schema without untyped variants is a subset of itself, unions included |
| `SubsetExact.WithinUnion` | internal/schema/subset.go:64-107 | a subset of one variant is a subset of the union |
| `Canonical.CanonIdempotent` | internal/schema/canonical.go:9-45 | the canonical form of a canonical form is itself |
| `Canonical.CanonIsCanonical` | internal/schema/canonical.go:54-120 | the result is sorted, flat, free of repeats and cannot collapse further, at every depth |
| `Canonical.CanonStays` | internal/schema/canonical.go:22-45 | every node of that shape is its own canonical form |
| `CanonicalMeaning.CanonMeans` | internal/schema/canonical.go:9-45 | the canonical form admits exactly the same values, bounds aside and unions read as any-of |
| `CanonicalMeaning.CanonKeepsEnums` | internal/schema/canonical.go:9-45 | and exactly the same values when enums are looked at too, at every depth |
| `CanonicalValidation.CanonValidates` | internal/schema/canonical.go:22-45 | where there is no union, the canonical form validates every value exactly as the node does, bounds, required keys and defaults included |
| `NodeOrder.SomeOrder` | internal/schema/canonical.go:51-105 | an order of nodes as the variants are sorted by exists, reals and maps included |
| `CanonicalMeaning.TwiceIsOnce` | internal/schema/canonical.go:51-120 | under exactly-one a repeated variant refuses what its canonical form accepts |
| `CanonicalMeaning.BoundsAreFolded` | internal/schema/canonical.go:167-174 | variants with bounds are folded, so the canonical form accepts a value out of bounds |
| `Join.JoinAdmits` | internal/schema/join.go:10-49 | the join admits every value either side admits, when object shares a type list with null alone |
| `Join.JoinCommutes` | internal/schema/join.go:10-49 | both orders give the same canonical type |
| `Join.JoinIsCanonical` | internal/schema/join.go:14-16 | a join is canonical, which makes equality of estimates identity |
| `Join.TypeListsJoin` | internal/schema/join.go:16-93 | the join of two type lists is an upper bound exactly when they are one list, or not both hold object, or neither holds anything else but null |
| `Join.ObjectHidesString` | internal/schema/join.go:51-93 | a type list with object and string loses string |
| `JoinTight.JoinIsTight` | internal/schema/join.go:16-93 | what the join admits is a value of one side, or an object that mixes the fields of both: each in a side's type, absent or null where one side lacks it, with all that both require |
| `JoinTight.JoinIsUnion` | internal/schema/join.go:16-49 | where the sides are not both objects the join admits exactly what one of them does |
| `Navigator.LookupProperty` | internal/schema/navigate.go:66-142 | the loop over variants computes the property type of the inference rules |
| `Navigator.InferIndex` | internal/schema/navigate.go:144-200 | the loop over variants computes the element type of the inference rules |
| `Navigator.WithoutNull` | internal/schema/navigate.go:506-560 | null taken off a type list or a union, nothing else |
| `TypeSoundness.TypesAreSound` | internal/expression/infer.go:87-248 | an expression with an inferred type evaluates to a value of it or divides by zero, narrowing included |
| `TypedContexts.WellTypedRuns` | internal/expression/infer.go:43-51 | the same in a context where every type is known, under conditions read off the expression |
| `TypedContexts.InferSolid` | internal/expression/infer.go:87-248 | inference in such a context never meets an untyped value |
| `TypedContexts.ConformedIsMember` | internal/schema/validate.go:40-169 | what the validator lets through, decoded, is a member of the type expressions are checked against |
| `TypeSoundness.PathInjective` | internal/expression/infer.go:265-283 | two expressions that print as one path are the same, if no name holds a mark |
| `TypeSoundness.BranchGuards` | internal/expression/infer.go:202-248 | in the branch an evaluation takes, what narrowing says of the compared path holds of its value |
| `Membership.LookupMem` | internal/schema/navigate.go:66-142 | a property of a member of a type is a member of the property's type |
| `Membership.LookupMisses` | internal/schema/navigate.go:83-98 | a variant without the property can only yield null for it |
| `Membership.IndexMem` | internal/schema/navigate.go:144-200 | an element of a member is a member of the element type, out of bounds included |
| `Membership.IndexNullable` | internal/schema/navigate.go:144-145 | null is in every element type |
| `Membership.StripNullMem` | internal/schema/navigate.go:506-560 | taking null off a type loses no other value |
| `Membership.WithNullMem` | internal/schema/navigate.go:476-504 | making a type nullable keeps its values and admits null |
| `MembershipExact.LookupExactly` | internal/schema/navigate.go:66-142 | the type of a property admits exactly the values that members of the type have there |
| `MembershipExact.IndexTight` | internal/schema/navigate.go:144-200 | every value of an element type is an element of some member, or its absence |
| `MembershipExact.WithNullExactly` | internal/schema/navigate.go:476-504 | made nullable a type admits null and what it did, nothing else |
| `MembershipExact.StripNullTight` | internal/schema/navigate.go:506-560 | with null off a type admits nothing it did not, and a list of types no null |
| `MembershipExact.EitherExactly` | internal/expression/infer.go:190-200 | the type of a conditional admits exactly what one of its branches does |
| `MembershipExact.CoalesceTight` | internal/expression/ops.go:195-215 | the type of a ?? b admits only what b does and what a does with null off |
| `TypeSoundness.BinarySound` | internal/expression/ops.go:38-53 | each pair of an operator's inference and evaluation agrees on all members of the operand types |
| `TypeSoundness.CoalesceSound` | internal/expression/ops.go:195-215 | the type of a ?? b holds its value unless the left type hides null |
| `TypeSoundness.EitherSound` | internal/expression/infer.go:190-200 | the type of a conditional holds the values of both branches |
| `TypeSoundness.NegationMem` | internal/expression/ops.go:181-193 | negation stays in the types of its operand |
| `InferenceExact.OperatorsExactly` | internal/expression/ops.go:60-193 | on operands of one type or a union of such, an operator is typed iff it fails on no pair of their values |
| `InferenceExact.ExpressionsExactly` | internal/expression/infer.go:152-166 | the same of expressions: typed iff the operator fails on no pair of values of the operands' inferred types |
| `InferenceExact.BranchesAndMembers` | internal/expression/infer.go:120-200 | a conditional is typed iff its condition is and each branch is under what the condition says there; a member is typed as the property or element of what it is taken from, unless a guard already types it |
| `InferenceExact.ResultIsLeast` | internal/expression/ops.go:60-193 | the type inferred for the result is the least that holds all results |
| `InferenceExact.PrefixExactly` | internal/expression/ops.go:96-116 | a prefix operator is typed iff it fails on no value of its operand, and keeps the operand's type or is boolean |
| `InferenceExact.NarrowedTypes` | internal/expression/infer.go:202-248 | after a comparison with a literal the path has the literal's type where it is equal, and where it differs from null its own with null off |
| `InferenceExact.DefaultIdiom` | internal/expression/infer.go:180-248 | x != null ? x : d has the type of x with null off or that of d |
| `EvaluationLaws.IntegerSums` | internal/expression/ops.go:242-261 | on two integers + and - are those of the integers and give integers |
| `EvaluationLaws.IntegerProducts` | internal/expression/ops.go:249-261 | so is * |
| `EvaluationLaws.IntegerOrder` | internal/expression/ops.go:219-240 | so are the comparisons |
| `EvaluationLaws.NumberOrder` | internal/expression/ops.go:219-240 | on numbers of either kind exactly one of <, == and > holds, by what they are worth; <= and >= are the unions |
| `EvaluationLaws.Quotients` | internal/expression/ops.go:263-272 | a quotient is the float quotient, a division by zero its own error |
| `EvaluationLaws.Remainders` | internal/expression/ops.go:274-283 | % leaves a multiple of the divisor, is smaller than it and has the dividend's sign |
| `EvaluationLaws.OneRemainder` | internal/expression/ops.go:274-283 | only one number does |
| `EvaluationLaws.Floats` | internal/expression/ops.go:242-261 | with a float among them + and - are those of what the numbers are worth and give floats; % fails |
| `EvaluationLaws.FloatProducts` | internal/expression/ops.go:249-261 | and * |
| `EvaluationLaws.Texts` | internal/expression/ops.go:242-247 | + joins two texts; no other arithmetic and no order takes them |
| `EvaluationLaws.KindsDiffer` | internal/expression/ops.go:219-283 | values of different kinds are unequal, and no arithmetic takes them |
| `EvaluationLaws.Logic` | internal/expression/eval.go:87-156 | a conjunction stops at false and a disjunction at true whatever follows; otherwise the right side decides |
| `EvaluationLaws.Choice` | internal/expression/eval.go:170-179 | a conditional is the branch its condition names, ?? its right side exactly for null |
| `EvaluationLaws.Signs` | internal/expression/ops.go:285-303 | negation turns the sign within the kind, and fails on anything but numbers |
| `EvaluationLaws.Access` | internal/expression/eval.go:51-85 | a member is what is held there, null when nothing is |
| `EvaluationLaws.LeftFails` | internal/expression/eval.go:87-179 | what fails on the left fails as a whole, in the same way |
| `TypingGaps.ModuloIsForIntegers` | internal/expression/ops.go:274-283 | % meets its type iff both values are held as integers |
| `TypingGaps.EqualityIsForScalars` | internal/expression/ops.go:219-230 | == and != meet their type iff the values are not two containers of a kind |
| `TypingGaps.CoalesceExactly` | internal/expression/ops.go:195-215 | the type of a ?? b holds of every pair of values iff the left type does not hide null or admits whatever the right one does |
| `TypingGaps.ModuloOnDecodedNumber` | internal/expression/ops.go:151-164 | typed, and evaluates outside its type: % on a number decoded from JSON |
| `TypingGaps.ObjectsPanic` | internal/expression/ops.go:219-230 | typed, and evaluates outside its type: == on two objects panics |
| `TypingGaps.HiddenNull` | internal/schema/navigate.go:391-409 | typed, and evaluates outside its type: null inside a variant is not seen by ?? |
| `TypingGaps.NullableObject` | internal/schema/navigate.go:127-141 | typed, and evaluates outside its type: null beside object in a type list is not seen by a property lookup |
| `TypingGaps.UntypedVariant` | internal/schema/navigate.go:83-98 | typed, and evaluates outside its type: an untyped variant is taken not to have the property |
| `TypingGaps.CollidingNames` | internal/expression/infer.go:265-283 | typed, and evaluates outside its type: a field name with a dot shares its path with a nested field |
| `TypingGaps.ComputedMemberOfNull` | internal/expression/infer.go:136-149 | typed, and evaluates outside its type: a computed member of null gets a type and fails to evaluate |
| `TypingGaps.NegationKeepsBounds` | internal/expression/ops.go:181-193 | the negated type keeps the operand's minimum, which the negated value breaks |
| `LazyContext.ExpressionAgrees` | internal/expression/refs.go:70-102 | evaluation with the collected roots resolved equals evaluation with everything resolved, when self is used by field |
| `LazyContext.TemplateAgrees` | internal/template/template.go:150-188 | the same for templates, block by block |
| `LazyContext.ShapeAgrees` | internal/engine/evaluator.go:108-148 | the same for shapes |
| `LazyContext.UnparsedHasNoValue` | internal/engine/evaluator.go:136-148 | a shape refused for a block that does not parse has no value eagerly either |
| `LazyContext.BareSelfDisagrees` | internal/expression/refs.go:83-91 | bare self is evaluated differently exactly when the previous value is missing or shows as its marker |
| `LazyLaws.EagerReads` | internal/engine/evaluator.go:35-106 | with every root asked for each name reads what its slot holds, loaded |
| `LazyLaws.LoadsOnlyAsked` | internal/engine/evaluator.go:35-106 | no other object is looked at: the scope is the same whatever the store holds under hashes that were not asked for |
| `LazyLaws.CollectsExactly` | internal/expression/refs.go:70-105 | input, error and the whole of outputs are collected exactly when the expression names them |
| `LazyLaws.CollectsOutputs` | internal/expression/refs.go:70-124 | single outputs and self.previous are collected exactly when the expression names them |
| `LazyLaws.PiecesRejoin` | internal/template/template.go:150-188 | the pieces of a template make it up again, cut at each first opening pair and the first closing pair after it, up to what follows a pair never closed |
| `LazyLaws.SingleIs` | internal/template/template.go:150-188 | a template is one expression exactly when it is a text in one pair of braces with no pair inside |
| `LazyLaws.RenderJoins` | internal/template/template.go:202-232 | pieces render one after the other, up to the first failure |
| `LazyLaws.TemplateMeans` | internal/template/template.go:202-232 | a template of one block has the value of its expression, of whatever type; one without a block is its own text |
| `LazyEvaluator.Evaluator.EvalShapeCtx` | internal/engine/evaluator.go:136-148 | the lazy evaluator returns what eager evaluation would |
| `LazyEvaluator.Evaluator.BuildEnv` | internal/engine/evaluator.go:35-106 | the environment for a set of roots, each marker loaded once |
| `LazyEvaluator.Evaluator.ResolveValue` | internal/engine/evaluator.go:12-33 | the stored value, remembered for the rest of the advance |
| `LazyEvaluator.ShapeRoots` | internal/engine/evaluator.go:108-134 | the roots of every leaf, or an error exactly when a block does not parse |
| `LazyEvaluator.EvalMixed` | internal/template/template.go:202-232 | the scan renders the pieces in order and fails at the first failure or an unclosed block |
| `LazyEvaluator.RootRefs` | internal/template/template.go:150-188 | the scan collects the roots of exactly the closed blocks |
| `Objects.SlotsResolve` | internal/db/db_objects.go:111-151 | on every run of diffs, shared contents, log references and sweeps each slot resolves to the value it was last given, and is kept apart iff that value is over the threshold |
| `Objects.PinnedIffReferred` | internal/db/db_objects.go:111-151 | an object is pinned exactly while a column refers to it, and the log serves only contents it was handed |
| `Objects.ReplacedIsDeleted` | internal/db/db_objects.go:117-120 | a replaced value no log needs is gone with the write that replaces it |
| `Objects.SweepIsComplete` | internal/db/db_objects.go:223-227 | after a sweep every object left is referred to or needed by a log |
| `Objects.LoggedSurvives` | internal/db/db_objects.go:192-226 | on every run a content whose last log reference has not lapsed is there under its hash, as logged, through any persists, crashes and sweeps |
| `Objects.EveryPromiseKept` | internal/db/db_objects.go:192-226 | if horizons grow with the clock, as under one retention window, every reference's is honoured and not just the last |
| `Objects.NearerPromiseCuts` | internal/db/gen/queries.sql.go:769-796 | a concrete run in which a later reference with a nearer horizon loses an object an earlier one still counts on |
| `Objects.SomeCodec` | internal/db/db_objects.go:54-84 | a codec that reads back what it marshals and hashes without collision exists, over JSON values whose numbers are literals |
| `Objects.ObjectStore.EncodeContext` | internal/db/db_instances.go:161-223 | columns, wanted objects and references of a context, slot by slot |
| `Objects.ObjectStore.ApplyContextObjectDiff` | internal/db/db_objects.go:111-151 | new objects pinned, dropped ones deleted or unpinned, every other row untouched |
| `Objects.ObjectStore.PersistContext` | internal/db/db_instances.go:318-330 | encoding and diff as the one persist step, the input column left alone |
| `Objects.ObjectStore.HydrateContext` | internal/db/db_objects.go:153-190 | every marker replaced by its value, a missing object read as absent |
| `Pagination.KeysetPredicate` | internal/db/paginate.go:358-389 | the OR-chain selects exactly the rows lexicographically past the cursor |
| `Pagination.DisplayOrder` | internal/db/paginate.go:358-389 | rows are shown by the first column in which they differ, numbers by size and text by its first differing character, ascending or descending throughout |
| `Pagination.BuildSource` | internal/db/paginate.go:202-299 | refused exactly for an unknown sort or a foreign cursor; else sort and direction asked for or by default, the limit within its bounds, scan direction and cursor condition in terms of display order |
| `Pagination.PageIsAdjacent` | internal/db/paginate.go:202-299 | After gives the rows right after the cursor, Before those right before it, both in display order |
| `Pagination.Orient` | internal/db/paginate.go:341-356 | the in-place flip of a backward page, and its boundary keys |
| `Pagination.Info` | internal/db/db.go:222-255 | capped counts, and a cursor on a side exactly when rows remain there, for a non-empty page |
| `Pagination.EmptyPageHidesRows` | internal/db/paginate.go:306-332 | an empty page reports no cursor although rows lie before it |
| `CursorText.CursorReadsBack` | internal/db/paginate.go:391-445 | the text of a minted cursor reads back as its key under its own sort and direction and under no other, int64 values exactly |
| `CursorText.AcceptedIsKeyed` | internal/db/paginate.go:406-445 | whatever text is presented, an accepted one gives a key of the columns' kinds |
| `Pagination.BackIsInverse` | internal/db/paginate.go:202-299 | on a fixed table Before of the next page gives back this page |
| `Pagination.StableWalk` | internal/db/paginate.go:95-104 | following After to the end shows every row present throughout exactly once, in order, while others come and go |

## Left out

- TreeSteps.NoLostWakeup: batches are keyed by parent and task, as in the code; that the outputs collected by a looping spawn task are those of its latest batch is false and not claimed.
- TreeDrain.DrainIsExact: assumes that no advance of the tree is in flight when it is cancelled, because such an advance may undo the cancel (CancelCanBeLost).
- TreeSteps.RetryKeeps: the retry step of runs allows every stopped root, with or without force; which retries are refused is RetryProcess.
- Advance.Instance.Advance: error texts are shortened to their reason; expressions, the projection and calls are functions of the data they read; the clock stands still during one advance.
- Visits.ChildrenOnce: how a child's definition, version and input are found is one function with an error case; the list of child ids kept for observers is not part of this model.
- AdvanceProofs.InlineIsStepwise: where a task moved to is not the first of its id it is false (DuplicateIdsDiverge); compares runs with the same configuration and clock.
- AdvanceProofs.AdvanceMayReturn: a definition in which a spawn or wait task shares its id with an earlier task of another kind leaves the tree theorems (MixedKindsStray).
- Visits.RetryBudget: a takeover that fails an only_once task ends the visit; re-entering a task by a route is a new visit with a new budget, as in the code.
- Signals.FirstComeFirstServed: requires that queue keys grow as signals come, which a clock set back can break.
- ErrorRules.SqlLikeMatch: a character is a byte of the text.
- Canonical.CanonIdempotent: two nodes that differ only in an empty list, an empty property map or a null default have one JSON text and are two nodes here; normalised schemas hold none of these.
- Subset.SubsetSound: on normalised nodes without references; typed sub nodes, fitting defaults, scalar enums, required within declared, a super schema without item counts and with exclusive oneOf; each restriction has a lemma that shows what breaks.
- SubsetExact.SubsetExactly: on nodes of one type without unions or enumerations, with room between the bounds of a number, whole bounds of an integer, and no keyword that cannot matter to the type; elsewhere a no can be wrong, as for a number pinned to one whole value.
- Conformance.AcceptedMeets: with an enumeration of objects or a default that does not fit it is false (ObjectEnum, DefaultUnchecked); ConformIsNormalForm holds without either condition.
- InferenceExact.OperatorsExactly: == and != take anything, % and ?? have lemmas of their own (TypingGaps); a type list of several types counts as no single type, as in the code.
- MembershipExact.LookupExactly: for types whose parts all have a value.
- JoinTight.JoinIsTight: for types with something besides null at every depth, as Join.JoinAdmits.
- Batches.OneBatchPerVisit: for batches that are not empty, which validation of definitions guarantees.
- CanonicalMeaning.CanonMeans: bounds are not part of membership, and unions admit what one variant admits; with bounds or exactly-one it is false (BoundsAreFolded, TwiceIsOnce).
- Join.JoinAdmits: on types where object shares a list with null alone; without that it is false (ObjectHidesString); for plain type lists TypeListsJoin is exact.
- TypeSoundness.TypesAreSound: numbers are exact; without % and comparison of two containers, with a ?? whose left type shows its null, named or numbered members and no untyped variant in a union; each exclusion has a lemma in TypingGaps.
- Fixpoint.OutputsStayTyped: takes the soundness of inference as a hypothesis, which RecursiveOutputs discharges.
- RecursiveOutputs.MapsAreSound: a null previous, which the scope of a task that does not loop holds too, is not among the fields of its self here; secrets are not tracked.
- EngineRuns.ContextSets: for distinct ids, which the tables are keyed by; with a repeated id no table keyed by ids can be right (DuplicateIdsMislead).
- EngineRuns.PresentAreListed: false after a revival (RevivalLeavesError), and for outputs with uncovered error routes (OwnBitClearedTooEagerly).
- CursorText.CursorReadsBack: keys of the token object are matched by letter case.
- LazyContext.ExpressionAgrees: self by field only; bare self disagrees (BareSelfDisagrees).
- Objects.SlotsResolve: one instance at a time; markers are not moved from one slot to another, as no expression can yield one.
- Pagination.StableWalk: rows are their sort keys and the table is what the filters keep; the filter builder and the text of the statements are not modelled.
- Schema references and $defs, flattening, and reference cycles in the subset test.
- Secrets: tainting, redaction and log scrubbing.
- The order in which a claim takes rows, worker slots, wake-up signals between goroutines and the overwhelm detector.
- Lock order and deadlocks of the SQL engines, migrations, placeholder rewriting.
- Cascading updates of parent definitions, channels, the HTTP, TCP and command-line interfaces, OpenAPI.
- Configuration from the environment, template type inference, dates and identifiers: they would only add easy members.
