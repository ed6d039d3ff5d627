# Verification of n8n's execution, activation and credential logic

n8n runs workflows on several processes at once. A workflow that waits is stored in the database
and resumed later, by a timer or by a child workflow that finished. This project models the code
in `packages/cli/src` that starts, pauses, resumes, retries and shuts down such work, together
with the credential algorithms of the same package, and proves what it guarantees. Where the code
does not give what one would expect, the project proves exactly when it does, or shows a run in
which it does not.

`dafny verify dfyconfig.toml` checks everything.

| file | what it models |
|---|---|
| `ResumeProtocol.dfy` | the race of timers and children to resume one waiting execution: patch, load, reserve, conditional update, start, retry |
| `ActiveExecutions.dfy` | the active executions of one process: capacity, promises and their finalizers, cancellation, shutdown |
| `ConcurrencyQueue.dfy` | the queue behind the production concurrency limit |
| `WaitTracker.dfy` | timers of waiting executions, bounded retry, resuming a parent |
| `CredentialTypes.dfy` | the walk over a credential type's ancestors that grows the array it iterates |
| `CredentialsOverwrites.dfy` | flattening of overwrites with a memo, lookup, save and reload, application |
| `CredentialRepair.dfy` | cached repair of credential references |
| `ActivationQueue.dfy` | retrying workflow activations with capped exponential backoff |
| `LeaderTriggers.dfy` | in-memory triggers across main instances |
| `Deadlines.dfy` | deadlines of main workflows and nested sub-workflows, and the stop timer across waits |
| `NodeGroups.dfy` | validation of node groups |
| `Common.dfy` | shared definitions |

## How the models relate to the code

- Asynchronous methods are cut at their awaits. `ResumeProtocol` and `LeaderTriggers` are state
  machines over those atomic steps, with any number of threads or instances in any interleaving.
  Services that update their fields are classes whose methods are proved equal to a step function;
  the theorems are about all runs of that function.
- `ResumeProtocol` keeps a history the code does not keep: each piece of run data stored afresh is a
  generation, and each copy of it remembers its generation and whether it was patched. A waiting
  epoch is named by the generation that began it, and patches are logged by the epoch they were
  written in. Only a run in progress stores fresh data, waits or ends. A resume that is refused for
  missing permission is a run that ends at once.
- In `ActiveExecutions` a registration is the record captured by a finalizer. It is addressed by an
  index, so that a map entry and the finalizer of an earlier registration can refer to different
  records under one execution id, as they can in the code.
- The credential hierarchy is one map: the known types and the loaded classes take their `extends`
  lists from the same class definition.

## What the proofs found

- The conditional update requires the status `waiting` but does not identify the wait. A copy loaded
  in one wait can win the next one (`StaleLoadWinsNextEpoch`), and the unconditional patch can put
  the data of one wait into the next (`StalePatchOverwritesNextEpoch`). While an execution waits, its
  resume is faithful in every continuation if and only if its row and every copy held by a thread
  agree with the data of this wait (`ResumesFaithfullyIffAllCopiesAgree`).
- A child that finishes before its parent's wait is stored skips the patch and resumes anyway, so
  its output is lost (`EarlyChildLosesItsOutput`). A resume with its own wait's data carries a child's
  output exactly if a patch was written before its load (`PatchedIffWrittenBeforeLoad`).
- A thread can resume its parent twice if and only if the start of a run takes effect, its call
  throws nevertheless, and a retry is left; the second time is a later wait
  (`ResumesOnceUnlessRepeated`, `SecondWinExactlyByRepeat`, `RetryResumesNextEpoch`).
- A row says `running` with nobody running it if and only if the conditional update took effect but
  its call threw, or the start threw between the registration and the beginning of the run
  (`RunningHasARunIffNeverStranded`). Nothing resumes such a parent, while the child's retry takes it
  for resumed and returns (`CommittedFaultStrandsParent`, `FaultedStartStrandsParent`); in the second
  case its registration keeps a slot.
- Stopping an execution that is `waiting` before its promise settled, registering an id again before
  that, and a late finalizer of an earlier registration leave capacity taken for ever, and nothing
  else does (`CapacityIsLostExactlyByStranding`, `StoppingTheWaitingLosesCapacity`).
- Shutdown switches concurrency control off before it asks it to cancel the collected rows, so no
  row is cancelled (`Executions.Shutdown`). An execution that begins to wait after the first pass of a
  shutdown keeps its entry, and the polling does not end unless that execution is stopped
  (`WaitingSurvivorBlocksShutdown`, `LingeringBlocksShutdown`).
- A caller that gave a finalized waiting entry another status would block a shutdown too
  (`ZombiesAriseExactlyBySetStatus`). This is a restriction on callers, and the code keeps it: the only
  status ever set is `waiting`, so no run has such an entry (`CallersMakeNoZombies`).
- Removing a queued execution lets the next one through although none finished; the concurrency
  limit is then exceeded (`LimitKeptExactlyUnlessRemoveAdmits`).
- After a stepdown the tracked waits keep their entries but lose their timers, and no later poll
  arms them again on that instance (`StepDownStrandsUntilFreed`).
- A workflow whose retry finds it archived or without an active version keeps its entry in the
  activation queue, without a timer (`DequeueAndSuccessClear`, `ReturnedRetryStaysIdle`).
- Flattening drops what a type inherits if that type is not a key itself: of its children only the
  first to be processed gets it (`SecondSiblingIsNotFlattened`). With parents before children nothing is
  dropped (`ParentsFirstInheritEverything`).
- Flattening the credential overwrites changes no lookup if and only if no type has several parents
  (`FlatteningKeepsLookupsIffSingleInheritance`): otherwise the first parent's value, which a lookup gave
  before, gives way to the last's (`FlatteningLetsLastParentWin`). No field is lost or invented on any
  hierarchy (`FlattenKeepsEveryField`), and saving the flattened table and reloading it changes nothing
  more, however many parents a type has (`SaveAndReloadChangesNothing`).
- If the call that resumes an execution throws although its run began, the parent of that execution is
  not resumed when the run ends (`ParentArrangedIffStartReturns`).
- References with one unresolvable id and different names are not repaired as single lookups would
  repair them (`CachedRepairAgreesIffNamesConsistent`).
- Without a positive maximum timeout, main workflows ignore every timeout while sub-workflows apply
  it (`MainAndSubAgreeIffMaximum`); and the deadline handed to sub-workflows is counted from the
  last resume (`SoftDeadlineDriftsWithWaits`).
- The stop timer keeps the budget of the first start only across resumes by the wait tracker. A resume
  through a webhook or a chat message does not pass `startedAt` on and has a whole budget again
  (`WaitingExtendsBudgetUnlessTracked`).
- A group with an empty name does not stop a node from joining a second group
  (`ValidateWorkflowNodeGroups`).

## Model

| member | source | states |
|---|---|---|
| ResumeProtocol.AtMostOneResumePerEpoch | packages/cli/src/active-executions.ts:112-174 | in every run of any number of threads no epoch is ended by two updates, at most one thread is between its update and the start of the run, and capacity is held exactly by attempts awaiting outcome or start, by runs not finalized and by registrations never started; refused and failed attempts hold none |
| ResumeProtocol.EndedEpochRefusesAll | packages/cli/src/active-executions.ts:127-136 | after an epoch ended, no further attempt succeeds until the execution waits again, whatever steps and faults follow |
| ResumeProtocol.QuietOnEntry | packages/cli/src/workflow-helpers.ts:449-473 | an epoch begins without foreign copies exactly if no thread holds a copy read before it |
| ResumeProtocol.QuietEpochResumesItsOwnData | packages/cli/src/workflow-helpers.ts:442-474 | from such a state, for every continuation, the resume that ends the epoch uses the data stored at its beginning; exactly if a patch was written in this epoch before the winner loaded, the data of the first frame is a finished child's output, and always if the winner's own patch had read this wait |
| ResumeProtocol.PatchedIffWrittenBeforeLoad | packages/cli/src/workflow-helpers.ts:449-473 | in every run, a resume whose copy is of its own epoch is patched exactly if a patch of the epoch preceded its load, and then the first frame holds a finished child's output |
| ResumeProtocol.ResumesFaithfullyIffAllCopiesAgree | packages/cli/src/wait-tracker.ts:124-155 | from every reachable waiting state, all continuations end this wait with its own data outside the head if and only if the row and every copy held by a thread agree with that data now |
| ResumeProtocol.EveryResumeIsOfItsGeneration | packages/cli/src/wait-tracker.ts:124-147 | whatever a resume uses was stored by the execution itself at some time, verbatim or with a finished child's output as the data of its first frame and nothing else changed |
| ResumeProtocol.ChildResumesParent | packages/cli/src/wait-tracker.ts:190-223 | from every reachable waiting state a child that nobody interferes with resumes the parent with its output in the first frame, all else unchanged, and one slot taken |
| ResumeProtocol.RunEndsAndReleases | packages/cli/src/active-executions.ts:159-174 | a run in progress ends with its outcome and gives its slot back when it is finalized |
| ResumeProtocol.FaultedAttempt | packages/cli/src/wait-tracker.ts:232-246 | an attempt that throws up to the conditional update gives back what it held and restarts its phase, exactly unless the error is final, it is a timer, or it was the third fault of the phase |
| ResumeProtocol.StartOutcomes | packages/cli/src/workflow-runner.ts:387-492 | however the start of a run ends, its slot stays taken: by a run in progress, by an abandoned registration, or by one to be finalized behind a recorded failure |
| ResumeProtocol.StaleLoadWinsNextEpoch | packages/cli/src/active-executions.ts:119-136 | a run in which the second wait of an execution resumes with the data of the first |
| ResumeProtocol.StalePatchOverwritesNextEpoch | packages/cli/src/workflow-helpers.ts:449-473 | a run in which a late patch replaces the data of the next wait |
| ResumeProtocol.EarlyChildLosesItsOutput | packages/cli/src/workflow-helpers.ts:454-456 | a run in which a child with output resumes its parent without it |
| ResumeProtocol.ResumesOnceUnlessRepeated | packages/cli/src/wait-tracker.ts:199-216 | in every run in which no fault hits a started run with a retry left, each thread resumes the execution at most once; wherever such a fault can occur, a continuation has the same thread resume it again |
| ResumeProtocol.SecondWinExactlyByRepeat | packages/cli/src/workflow-runner.ts:530-544 | a fault during the start of a run lets the thread win again in some continuation if and only if the run did start and a retry is left |
| ResumeProtocol.ChildResumesBoundedly | packages/cli/src/wait-tracker.ts:199-216 | whatever faults occur, one child resumes its parent at most three times and never twice in one epoch |
| ResumeProtocol.QuietReturnMeansParentLeft | packages/cli/src/wait-tracker.ts:153-168 | a return without the failure log means the thread resumed the parent or found it not waiting |
| ResumeProtocol.RetryResumesNextEpoch | packages/cli/src/wait-tracker.ts:210-216 | a run in which one child's retries resume the parent in two successive waits |
| ResumeProtocol.ParentArrangedIffStartReturns | packages/cli/src/wait-tracker.ts:153-177 | if the call that began a run threw, no thread newly gets to arranging the resume of the execution's own parent until the execution waits again; if it returned, its own thread does and no other |
| ResumeProtocol.RunningHasARunIffNeverStranded | packages/cli/src/workflow-runner.ts:324-393 | in every run that leaves the row `running`, a run is in progress or about to be started if and only if no fault hit a conditional update that took effect or a registration whose run had not begun; after such a fault nothing resumes the execution and it never waits again |
| ResumeProtocol.StrandsExactlyByFault | packages/cli/src/active-executions.ts:127-141 | one step leaves the row running with nobody behind it exactly if it is one of these two faults |
| ResumeProtocol.CommittedFaultStrandsParent | packages/cli/src/wait-tracker.ts:157-165 | a run in which the update takes effect, the child's retry returns normally and the parent is running with no run |
| ResumeProtocol.FaultedStartStrandsParent | packages/cli/src/workflow-runner.ts:387-387 | a run in which the start throws before the run begins: the child returns normally, the parent is running behind a registration that keeps its slot |
| ActiveExecutions.CapacityIsConserved | packages/cli/src/active-executions.ts:62-174 | in every reachable state capacity is that of calls between reserving and their outcome plus non-evaluation registrations not finalized |
| ActiveExecutions.OrphansAriseExactlyByStranding | packages/cli/src/active-executions.ts:143-174 | a step leaves a registration nobody can settle exactly if it is one of three: registering an unsettled id again, stopping an unsettled waiting execution, or the late finalizer of an earlier registration |
| ActiveExecutions.OrphanHoldsCapacityForever | packages/cli/src/active-executions.ts:159-174 | no sequence of steps ever releases the capacity of such a registration |
| ActiveExecutions.CapacityIsLostExactlyByStranding | packages/cli/src/active-executions.ts:143-174 | a run ends with such a registration if and only if one of its steps is of that family |
| ActiveExecutions.StoppingTheWaitingLosesCapacity | packages/cli/src/active-executions.ts:228-232 | a run that stops an execution set to waiting before its run ended, and so loses a slot |
| ActiveExecutions.EndingFreesTheSlot | packages/cli/src/active-executions.ts:159-260 | in every run, finalizing or stopping an execution that does not wait, followed by its finalizer, removes that execution and no other and gives its slot back |
| ActiveExecutions.FinalizedExecutionLeaves | packages/cli/src/active-executions.ts:159-260 | the same with anything in between: its finalizer still releases the slot and removes the execution if it does not wait by then |
| ActiveExecutions.ReturnedAddRuns | packages/cli/src/active-executions.ts:62-157 | a call that returns has registered a running execution in place of any other of its id and holds a slot unless it is an evaluation |
| ActiveExecutions.ThrownAddLeavesNothing | packages/cli/src/active-executions.ts:138-141 | a call that throws leaves capacity and map as they were when it began |
| ActiveExecutions.LeavingForgetsResponseMode | packages/cli/src/active-executions.ts:164-174 | an id leaves the map only by its own stop or finalizer, and its response mode goes with it |
| ActiveExecutions.ZombiesAriseExactlyBySetStatus | packages/cli/src/active-executions.ts:308-310 | a restriction on callers: a finalized entry that will not be removed would arise exactly by changing the status of a finalized waiting entry |
| ActiveExecutions.CallersMakeNoZombies | packages/core/src/execution-engine/node-execution-context/base-execute-context.ts:110-115 | in every run whose callers only set the status waiting there is no such entry |
| ActiveExecutions.ShutdownSurvivors | packages/cli/src/active-executions.ts:325-344 | the first pass removes exactly the waiting executions and, unless everything is cancelled, the new ones; a cancellation of everything settles all that remain |
| ActiveExecutions.ShutdownStartsDraining | packages/cli/src/active-executions.ts:333-344 | after the first pass of a shutdown every survivor is still to be finalized and not waiting |
| ActiveExecutions.DrainingKeptExactlyUnlessWaiting | packages/cli/src/active-executions.ts:159-174 | while shutting down, every survivor stays due to be removed exactly unless one begins to wait |
| ActiveExecutions.ShutdownDrains | packages/cli/src/active-executions.ts:348-357 | while none begins to wait the population never grows, and it is empty once every survivor's finalizer ran |
| ActiveExecutions.CancelAllNeedsNoCooperation | packages/cli/src/active-executions.ts:337-339 | after every run of the callers, with `cancelAll` in regular mode, the finalizers that are due empty the map on their own |
| ActiveExecutions.LingeringBlocksShutdown | packages/cli/src/active-executions.ts:350-357 | an entry that waits, or was finalized and left, stays in the map through a shutdown if and only if it is not stopped while waiting and no late finalizer of an earlier registration of its id runs |
| ActiveExecutions.WaitingSurvivorBlocksShutdown | packages/cli/src/active-executions.ts:162-171 | a run of the callers in which a survivor begins to wait, its run is finalized, and its entry remains |
| ActiveExecutions.Executions.ReserveCapacity | packages/cli/src/active-executions.ts:80-117 | reserves for every mode but evaluation |
| ActiveExecutions.Executions.FailAdd | packages/cli/src/active-executions.ts:138-141 | gives the reservation back |
| ActiveExecutions.Executions.FinishAdd | packages/cli/src/active-executions.ts:143-156 | registers the execution as running, in place of any earlier entry of its id |
| ActiveExecutions.Executions.RunFinalizerOf | packages/cli/src/active-executions.ts:159-174 | releases the slot of its registration and removes the entry of its id unless the registration is waiting |
| ActiveExecutions.Executions.StopOne | packages/cli/src/active-executions.ts:211-238 | drops a waiting entry, settles any other |
| ActiveExecutions.Executions.Finalize | packages/cli/src/active-executions.ts:241-260 | settles the promise of the current registration of the id, if there is one, and nothing else |
| ActiveExecutions.Executions.CancelOrDrop | packages/cli/src/active-executions.ts:325-344 | the loop over all ids has the effect of one simultaneous pass, in any order |
| ActiveExecutions.Executions.Shutdown | packages/cli/src/active-executions.ts:325-358 | polls until the map is empty, never lets the population grow, and cancels no row |
| ConcurrencyQueue.LimitKeptExactlyUnlessRemoveAdmits | packages/cli/src/concurrency/concurrency-queue.ts:44-54 | a step keeps the limit exactly unless it removes a queued execution while another is queued |
| ConcurrencyQueue.ServedInOrderWithinLimit | packages/cli/src/concurrency/concurrency-queue.ts:21-42 | capacity accounts for everyone in every run; without removals the limit holds and executions are admitted in order of arrival |
| ConcurrencyQueue.EveryArrivalIsAccountedFor | packages/cli/src/concurrency/concurrency-queue.ts:21-54 | in every run each arrival was let through, is queued or was removed from the queue, and those running are those let through less those finished |
| ConcurrencyQueue.RemoveTakesTheFirst | packages/cli/src/concurrency/concurrency-queue.ts:44-54 | the first queued occurrence of the id leaves, the others keep their order, and the first of them is let through; an unknown id changes nothing |
| ConcurrencyQueue.Queue.Remove | packages/cli/src/concurrency/concurrency-queue.ts:44-54 | removes the first queued occurrence of an id and admits the next execution |
| WaitTracker.OneTimerPerExecution | packages/cli/src/wait-tracker.ts:98-118 | in every run in which no execution is started directly while its timer is armed, an execution has at most one timer, and none once it is stopped |
| WaitTracker.StaleTimersAriseExactlyByDirectStart | packages/cli/src/wait-tracker.ts:120-122 | a timer goes stale exactly by such a start |
| WaitTracker.DirectStartThenPollArmsTwice | packages/cli/src/wait-tracker.ts:98-122 | such a start and a poll that finds the execution waiting arm two timers for it |
| WaitTracker.TrackedByPollOnly | packages/cli/src/wait-tracker.ts:82-124 | an execution is tracked by a poll that finds it and forgotten by its own timer, start or stop, and by nothing else |
| WaitTracker.ArmedByPollOnly | packages/cli/src/wait-tracker.ts:82-124 | a timer is armed only by a poll for an untracked execution, and silenced only by firing, or by a stop or loss of leadership while it is the tracked one |
| WaitTracker.StopSilencesUnlessStale | packages/cli/src/wait-tracker.ts:112-118 | stopping an execution leaves no timer for it exactly if none was stale |
| WaitTracker.PollArmsExactlyUnlessStranded | packages/cli/src/wait-tracker.ts:98-109 | a poll leaves a found execution with a live timer exactly if its entry was not stranded |
| WaitTracker.StepDownStrandsUntilFreed | packages/cli/src/wait-tracker.ts:249-258 | in every run, what is tracked when the leadership is lost gets no timer from any polls and changes of leadership until its own start, stop or stale timer frees it |
| WaitTracker.Tracker.GetWaitingExecutions | packages/cli/src/wait-tracker.ts:82-110 | arms a timer for every found execution that is not tracked |
| WaitTracker.Tracker.StopTracking | packages/cli/src/wait-tracker.ts:249-258 | clears the timers of all tracked executions and keeps their entries |
| WaitTracker.WithRetry | packages/cli/src/wait-tracker.ts:232-246 | between 1 and max(1, maxAttempts) calls, stopping at the first success or non-retryable error with that outcome; backoff 100(2^(calls-1) - 1) ms |
| WaitTracker.ResumeParentExecution | packages/cli/src/wait-tracker.ts:190-223 | starts the parent only after a patch that returned, each with up to three attempts that end only by success, a final error or the third failure; logs exactly when a phase failed, and does nothing for a waiting child |
| CredentialTypes.GetParentTypes | packages/cli/src/credential-types.ts:26-38 | ends if no cycle lies ahead of the type, although it grows what it iterates; finds exactly the proper ancestors, first occurrences nearest first under single inheritance |
| CredentialTypes.WalkEndsIffNoCycleAhead | packages/cli/src/credential-types.ts:33-35 | the recursion from a type is bounded if and only if no cycle lies ahead of it |
| CredentialTypes.RankDecreases | packages/cli/src/credential-types.ts:33-35 | where no cycle lies ahead, none lies ahead of an ancestor, and it has strictly fewer ancestors of its own |
| CredentialTypes.WalkWithinCost | packages/cli/src/credential-types.ts:33-35 | what a walk returns costs less to visit than the type it was asked for |
| CredentialsOverwrites.FlattenIsSound | packages/cli/src/credentials-overwrites.ts:102-115 | after every key order each entry holds its own fields and only nearest-ancestor values |
| CredentialsOverwrites.FlattenThenWalkIsNearest | packages/cli/src/credentials-overwrites.ts:102-115 | for single inheritance and any key order, lookup maps each field to the nearest self-or-ancestor's original value |
| CredentialsOverwrites.SaveAndReloadChangesNothing | packages/cli/src/credentials-overwrites.ts:56-130 | loading the saved, flattened table and flattening it again gives the same table and memo, for all data and on every hierarchy without cycles ahead of a key, with any number of parents |
| CredentialsOverwrites.FlattenAgain | packages/cli/src/credentials-overwrites.ts:102-115 | the same from any memo: a second pass over the keys in their order finds every entry as the first left it |
| CredentialsOverwrites.ReloadInAnyOrderPreservesLookup | packages/cli/src/credentials-overwrites.ts:102-115 | with single inheritance a second pass in any other order changes no lookup either |
| CredentialsOverwrites.ParentsFirstInheritEverything | packages/cli/src/credentials-overwrites.ts:102-207 | if every key comes after its parents, the flattened entry of a type has every field that it or any ancestor sets |
| CredentialsOverwrites.SecondSiblingIsNotFlattened | packages/cli/src/credentials-overwrites.ts:177-207 | of two types whose common parent is not a key, only the one that comes first gets the inherited field into its entry |
| CredentialsOverwrites.UnknownParentsGiveNothing | packages/cli/src/credentials-overwrites.ts:183-186 | an entry is left as it was, in any order, if none of its type's parents is recognised |
| CredentialsOverwrites.FlattenKeepsEveryField | packages/cli/src/credentials-overwrites.ts:102-222 | on every hierarchy without cycles and for any key order, a lookup after flattening finds exactly the fields found before, with values the original gives at a self-or-ancestor, the type's own if it has one, and unchanged where the types that set a field agree |
| CredentialsOverwrites.FlatteningKeepsLookupsIffSingleInheritance | packages/cli/src/credentials-overwrites.ts:102-222 | on a hierarchy without cycles whose parents are recognised and named once, flattening changes no lookup, for all data, key orders and types, if and only if no type has more than one parent |
| CredentialsOverwrites.FlatteningLetsLastParentWin | packages/cli/src/credentials-overwrites.ts:194-222 | for every type with two parents, data for which its lookup gives the first parent's value before flattening and the last parent's after it |
| CredentialsOverwrites.Overwrites.GetOverwrites | packages/cli/src/credentials-overwrites.ts:177-207 | the recursion with its memo computes `Resolve` |
| CredentialsOverwrites.Overwrites.SetPlainData | packages/cli/src/credentials-overwrites.ts:102-115 | the loop computes `Flatten`, and the table is sound for the data given |
| CredentialsOverwrites.Overwrites.Reload | packages/cli/src/credentials-overwrites.ts:56-77 | reloading leaves the table and the memo as they are |
| CredentialsOverwrites.Overwrites.Get | packages/cli/src/credentials-overwrites.ts:209-222 | the result is the merge of the entries over a walk of the type's ancestors; over a sound table with single inheritance, the nearest value of every field, and nothing if no self-or-ancestor has an entry |
| CredentialsOverwrites.OverwritesFillOnlyGaps | packages/cli/src/credentials-overwrites.ts:139-175 | a value of the user's own always stays; what is absent, null, undefined or empty takes the overwrite, unless the type is skip-listed and some overwritten field was filled in differently, when nothing changes |
| CredentialsOverwrites.ApplyOverwrite | packages/cli/src/credentials-overwrites.ts:139-175 | the two loops compute that, and keep every field that is not null, undefined or the empty string |
| CredentialsOverwrites.ApplyIsIdempotent | packages/cli/src/credentials-overwrites.ts:165-174 | applying twice is applying once, and no field other than null, undefined or the empty string changes |
| CredentialsOverwrites.SkipListedIsAllOrNothing | packages/cli/src/credentials-overwrites.ts:150-163 | for a skip-listed type the data is unchanged if some overwritten field was filled in differently, and otherwise all overwrites hold afterwards |
| CredentialRepair.CachedRepairAgreesIffNamesConsistent | packages/cli/src/workflow-helpers.ts:264-380 | the cached repair equals a stateless lookup of every reference if and only if no reference differs in name from an earlier unresolvable one with its type and id |
| CredentialRepair.EveryReferenceIsRepaired | packages/cli/src/workflow-helpers.ts:264-380 | in every workflow a reference by name becomes the sole credential of its type and name in the project, exactly if there is one; a reference whose id exists with its type keeps the id and takes the stored name; any other keeps its id or becomes the sole credential of its name |
| CredentialRepair.ConsistentNamesReplaceUnknownIds | packages/cli/src/workflow-helpers.ts:346-371 | with consistent names an unknown id is replaced by the sole credential of the name, if there is one, and left alone otherwise |
| CredentialRepair.UnfoundNameSeenTwice | packages/cli/src/workflow-helpers.ts:316-326 | a bare name that finds nothing is left alone the first time and becomes a reference without an id when the cache answers |
| CredentialRepair.SecondPassChangesNothing | packages/cli/src/workflow-helpers.ts:264-380 | repairing twice is repairing once, for all workflows |
| CredentialRepair.RepairNodesIsRepairOfVisits | packages/cli/src/workflow-helpers.ts:278-289 | disabled nodes and nodes without credentials are untouched, and the caches see the rest as one sequence |
| CredentialRepair.RepairOne | packages/cli/src/workflow-helpers.ts:286-376 | the branches for one reference compute `Repair`, and over sound caches the result refers to what was asked for |
| CredentialRepair.Workflow.ReplaceInvalidCredentials | packages/cli/src/workflow-helpers.ts:278-379 | the nested loops repair every reference of every enabled node in its place and touch nothing else |
| ActivationQueue.BackoffCountsFailures | packages/cli/src/active-workflow-manager.ts:984-1021 | after any run, while an enqueued workflow is neither enqueued anew nor taken out, it has a timer or a retry in flight, and its delay is min(1000 * 2^n, one day) where n counts the ordinary failures of its retries in the steps since |
| ActivationQueue.RetriesBackOff | packages/cli/src/active-workflow-manager.ts:984-1021 | the run in which the retries of one workflow fail n times ends with its one timer armed for that delay |
| ActivationQueue.DelayIsCappedExponential | packages/cli/src/active-workflow-manager.ts:986-1003 | every entry's delay is determined by its count of ordinary failures, and reaches the cap at the 17th |
| ActivationQueue.OneTimerPerWorkflow | packages/cli/src/active-workflow-manager.ts:1012-1021 | in every run in which no workflow is enqueued during its own retry, two armed timers of one workflow are the same, and none is armed during the retry |
| ActivationQueue.OneTimerKeptExactlyUnlessOverlap | packages/cli/src/active-workflow-manager.ts:1012-1021 | one step breaks this exactly if it is such an overlap |
| ActivationQueue.OverlapThenFailureArmsTwice | packages/cli/src/active-workflow-manager.ts:1002-1003 | that overlap followed by a failure arms two timers |
| ActivationQueue.DequeueAndSuccessClear | packages/cli/src/active-workflow-manager.ts:1027-1041 | dequeuing and every return of a retry leave no timer, and a retry failing after a dequeue arms none; the entry goes too, unless the retry returned without adding the workflow |
| ActivationQueue.ReturnedRetryStaysIdle | packages/cli/src/active-workflow-manager.ts:703-706 | a workflow whose retry returned, having added it or not, is not retried again until it is enqueued anew |
| ActivationQueue.Queue.RetryFailed | packages/cli/src/active-workflow-manager.ts:984-1005 | re-arms with twice the delay up to one day, or with the same one after an isolate failure; throws if the entry is gone |
| ActivationQueue.Queue.AddQueuedWorkflowActivation | packages/cli/src/active-workflow-manager.ts:1012-1021 | replaces any entry by a fresh one with the initial delay |
| LeaderTriggers.TriggersNeverLiveTwice | packages/cli/src/active-workflow-manager.ts:687-811 | in every run in which no stepdown interrupts an activation, a workflow's triggers are never live on two instances |
| LeaderTriggers.SafeKeptExactlyUnlessLateRegistration | packages/cli/src/active-workflow-manager.ts:726-811 | only the leader holds triggers, kept by every step exactly unless an instance registers after losing the leadership it had checked |
| LeaderTriggers.StepOnInstance | packages/cli/src/active-workflow-manager.ts:660-811 | triggers appear on an instance only where an activation in progress registers them and go only with their removal or its leadership; activations begin only on the leader and end by registering or aborting |
| LeaderTriggers.LiveUntilRemoved | packages/cli/src/active-workflow-manager.ts:726-811 | registered triggers stay live through any run without their removal or a stepdown of the instance |
| LeaderTriggers.LateAddsAriseExactlyByStepDown | packages/cli/src/active-workflow-manager.ts:660-665 | such activations arise exactly by stepping down while one is in progress |
| LeaderTriggers.InterruptedAddDuplicates | packages/cli/src/active-workflow-manager.ts:726-811 | from every safe cluster with the leader amid an activation and another instance, a run interrupted by a stepdown leaves the workflow's triggers on both |
| Deadlines.WaitedChainTakesTheLeast | packages/cli/src/workflow-execute-additional-data.ts:210-255 | along calls that are waited for, the deadline is the least of those defined, and undefined only if none is |
| Deadlines.DeadlineAsksAndClamps | packages/cli/src/workflow-execute-additional-data.ts:210-239 | the timeout asked for is the setting or else the default; if positive it ends that many seconds after the start, or after a smaller positive maximum |
| Deadlines.OneCallsDeadline | packages/cli/src/workflow-execute-additional-data.ts:210-255 | what a call waits under only ever shortens its own deadline, and is ignored if it is not waited for |
| Deadlines.UnwaitedCallStartsAfresh | packages/cli/src/workflow-execute-additional-data.ts:248-250 | nothing outside a call that is not waited for limits it or its callees |
| Deadlines.MainAndSubAgreeIffMaximum | packages/cli/src/workflow-runner.ts:346-375 | the main and the sub-workflow computation agree if and only if the maximum is positive or no timeout is asked for |
| Deadlines.EffectiveIsLeast | packages/cli/src/workflow-runner.ts:346-350 | a main workflow has a timeout exactly if one is asked for and the maximum is positive, namely the lesser of the two |
| Deadlines.StopInstant | packages/cli/src/workflow-runner.ts:438-460 | a run stops at max(now, startedAt + limit) |
| Deadlines.SegmentStops | packages/@n8n/db/src/repositories/execution.repository.ts:369-385 | through any sequence of waits and resumes the row keeps the instant its first segment wrote; a segment resumed by the tracker stops at max(now, startedAt + limit) for it, any other a whole budget after its timer is armed |
| Deadlines.Row.SetRunning | packages/@n8n/db/src/repositories/execution.repository.ts:369-385 | writes the start instant only if there is none |
| Deadlines.Row.RunSegment | packages/cli/src/workflow-runner.ts:387-460 | one run of the execution has the effect and the stop instant of one segment |
| Deadlines.WaitingExtendsBudgetUnlessTracked | packages/cli/src/webhooks/webhook-helpers.ts:664-673 | a later segment stops no later than the first would have if and only if the tracker resumed it by then, or no time passed |
| Deadlines.SoftDeadlineDriftsWithWaits | packages/cli/src/workflow-runner.ts:372-373 | the deadline passed to sub-workflows lies behind the stop instant by the elapsed time, up to a whole budget |
| NodeGroups.ValidateWorkflowNodeGroups | packages/cli/src/workflow-helpers.ts:146-178 | accepts exactly if names are distinct, every mentioned id is the non-empty id of a node, and no node is mentioned again after a mention in a group with a non-empty name; a rejection names a mention that is at fault |
| NodeGroups.NonEmptyNamesMeanNoRepeats | packages/cli/src/workflow-helpers.ts:168-175 | with non-empty names that is: no node is mentioned twice |

## Left out

- Node execution, lifecycle hooks, push, events, logging, streaming and heartbeats: a run is a step that finishes, fails or waits.
- Database, queue broker, cipher and pubsub transport: only atomic conditional update, unconditional write, read, and delivery to the leader are kept. JSON encoding and encryption of the saved overwrites are taken to be lossless, key order included.
- Wall-clock time: timers are a set of armed timers; `triggerTime` and the delays between retries are not related to instants.
- `startedAt`, `responsePromise`, `httpResponse` and `workflowExecution` of an active execution, and with them the response promises rejected by a stop.
- The lazily resolved evaluation queue and the telemetry of concurrency control.
- `getLastExecutedNodeData`, `shouldRestartParentExecution` and pinned data: a finished child is represented by the output it would copy; the two functions are single expressions.
- Names that collide with members of `Object.prototype` (such as `constructor`) in the plain-object caches of the credential repair.
- `CredentialTypes.GetParentTypes`: if a cycle lies ahead of the type, the source recurses without end and overflows the stack; the model requires that there is none.
- `CredentialsOverwrites.Overwrites.GetOverwrites`, `SetPlainData` and `Get`: if a cycle lies ahead of the type, of a key of the data or of the name, the source recurses without end; the model requires that there is none.
- `CredentialsOverwrites.Overwrites.Get`: gives the nearest value for single inheritance only, because with several parents flattening changes lookups (`FlatteningKeepsLookupsIffSingleInheritance`); `FlattenKeepsEveryField` says what holds then.
- `CredentialsOverwrites.FlatteningKeepsLookupsIffSingleInheritance`: hierarchies that name a parent twice, or a parent that is not a recognised type, are not covered by the equivalence; nor is it said for which given data a lookup is kept with several parents, except where the types that set a field agree (`FlattenKeepsEveryField`).
- `CredentialsOverwrites.ApplyOverwrite`: scalar field values only; nested values are compared by reference in the source.
- `ActiveExecutions.ShutdownDrains`: an `add` still waiting for capacity or its row when the shutdown begins is not part of what happens during the shutdown.
- `ResumeProtocol.AtMostOneResumePerEpoch`: slots, runs and registrations are one total over all processes; in the code each process has its own capacity, and the statement is the sum over them.
- `ResumeProtocol.RunningHasARunIffNeverStranded`: the recovery of executions left `running` by a crashed process, at the next start of that process, is not modelled; neither are the errors `processError` ignores as cancelled.
- `ActiveExecutions.Executions.Shutdown`: the polling loop runs over a finite list of rounds of events given in advance, because nothing guarantees that a workflow ends.
- `LeaderTriggers.TriggersNeverLiveTwice`: stepping down and clearing the triggers are one step; webhooks, which live in the database, are not modelled.
- The pubsub handler for removal does not dequeue a queued activation; the model makes no claim that it does.
- `getVariables`, the validation of a workflow's structure and the merging of runs per branch are not modelled: they are lookups, schema checks and calls into other packages, and share no state with the parts that are.
- `ResumeProtocol`: the patch read and the load take the row and its data at one instant, while `findSingleExecution` reads the row and then the data bundle (packages/cli/src/executions/execution-persistence.ts:188-205), so a status may be paired with data stored in between.
- `ResumeProtocol`: a resume whose execution context cannot be established stores an emptied node stack before it fails (packages/cli/src/workflow-runner.ts:228-233); this is possible only for data saved without `runtimeData`.
