# DataPipe, verified core

A Dafny model of the parts of DataPipe where correctness is hardest to see: hot deployment and
execution tracking of flows, the bounded wire and the durable store-and-forward queue, the SECS-II
codec and the HSMS session under it, stream framing, and the two processors that keep a time window.
Each component is a module; loops and in-place updates of the source are methods and classes proved
against specification functions, and the properties are proved of those functions for every input,
every interleaving of steps or every sequence of events. `dafny verify dfyconfig.toml` checks it all.

| files | component |
|---|---|
| `Flow`, `Deploy`, `Restart`, `Deployment`, `FanOut` | flow files, what a redeploy keeps, the same read off the files, the deployment object, sending to all wires of an output |
| `Tracker`, `Slots`, `SlotRuns`, `Reconfigure`, `ExecTracker` | accounting of an execution's events, concurrency slots from start to report, what the settings do in a run, replacing the semaphore, the tracker object |
| `Runner`, `Completion` | one node's handling of a datagram, when an execution completes |
| `Wire` | the ring buffer between ports and its overflow policies |
| `StoreForward`, `StoreBounds`, `DiskQueue`, `Drain` | the disk queue and its crash recovery, its bounds on stamps and sizes, the queue object, and the loop that empties it |
| `SecsII`, `SecsIITables` | the SECS-II item codec, and its wire format in plain numbers |
| `HsmsMessage`, `HsmsSelect`, `HsmsHandshake`, `HsmsRouting` | HSMS blocks, the select procedure, that it comes to its end, transaction routing |
| `Framing` | frames out of a byte stream |
| `Join`, `JoinFates`, `Throttle` | the windowed join, the fate of each arrival, and the sliding-window throttle |
| `Bytes`, `Options` | fixed-width integers as bytes; optional values |

## How it is modelled

Concurrency is a state machine whose steps are the critical sections of the source and what callers
do between them; a run is any sequence of enabled steps. Reading the tracker's semaphore and sending to or
receiving from it are steps apart, so a reconfiguration can come between. Clocks, disk failures, the order in which a
map is walked, failing node starts and the peer's messages are parameters or free choices. The node
fingerprint is taken as the data it hashes; the inbox fingerprint is an arbitrary function of that
data, so the results hold for any digest. Floating-point items are bit patterns. Wires are identified
by allocation number, so "the same object" can be said.

Where the code and its own comments disagree, the model follows the code:

- engine/flow/graph.go:570-572 says nodes that keep running never see a dangling target. They do:
  `Deploy.AddedSourceStrandsSender`; the exact condition is `Deploy.KeptSenderExact`.
- engine/flow/execution.go:262-264 takes an idle tracker as safe to reconfigure. It is not:
  `Reconfiguring.IdleIsNotQuiescent`; the exact condition is `Reconfiguring.ReconfigureExact`. More than the limit
  can then be active, by no more than the executions the new semaphore does not know: `LimitExceeded`, `ExcessBounded`.
- Completion counts one pending datagram per output and is reported after sending, so it comes early for
  every port with two or more wires, never for a port with none, and can come early behind a slow report:
  `Completion.SplitTriggerEndsEarly`, `SplitOutputEndsEarly`, `UnwiredTriggerNeverEnds`,
  `UnwiredOutputNeverEnds`, `SentBeforeReportedEndsEarly`; the exact condition is `Completion.CompletionExact`.
- engine/flow/runner.go:225-228 calls the report of an expired datagram a terminal failure, but without an error
  the execution is not marked failed: `Runner.ExpiredIsNoFailure`.
- engine/nodes/hsms/conn.go:440-442 says replies never appear on Recv. Late ones do:
  `HsmsRouting.LateReply`. Conversely a primary message can be taken for a reply:
  `HsmsRouting.PrimaryTakenForReply`. The exact condition of both is `HsmsRouting.RoutingExact`.
- engine/storeforward/queue.go:106-107 excludes the entry just added from the drop count. It is counted
  when it alone exceeds the bound: `StoreForward.NewEntryLost`.
- engine/nodes/delay/delay.go:159-162 expects one pass after the wait to be enough. It is not when the
  clock reads exactly the computed time: `Throttle.WakeUpExact`.
- The frame size limit is not independent of how reads are chunked: `Framing.LimitDependsOnChunking`;
  the exact conditions are `Framing.LimitErrorExact` for a run and `Framing.LimitFreeExact` for the bytes.
- In a left join a stale left item met by a right item of its key is lost, not emitted:
  `Join.StaleLeftItemIsLost`; the exact losses are `JoinFates.LossesExact` and `JoinFates.LeftJoinLoses`.

## Model

| member | source | states |
|---|---|---|
| `Flow.Validate` | engine/flow/validate.go:30-122 | accepts exactly the files with distinct node ids, known types and usable configurations, distinct non-empty wire ids, endpoints that exist, and a mode that fits the entry nodes |
| `Restarts.WellFormedExact` | engine/flow/validate.go:30-122 | what those files are, said on nodes, wires and registry alone: every wire from an output or error port to an input there is; triggered files with a trigger and no source, streaming ones without trigger, others with neither |
| `Flow.CollectNodes` | engine/flow/validate.go:34-42 | finds duplicates exactly, and otherwise gives each id its definition |
| `Flow.CheckTypes` | engine/flow/validate.go:50-87 | every type known and configuration usable, and whether a source or a trigger is among them |
| `Flow.CheckWires` | engine/flow/validate.go:89-103 | wire ids named apart and every endpoint on an existing node and port |
| `Flow.SourcesLocal` | engine/flow/graph.go:546-551 | what feeds an input depends only on the wires touching its node |
| `Flow.SamePrintSameInbox` | engine/flow/graph.go:546-613 | an inbox fingerprint is determined by its owner's node fingerprint: what recreates an inbox restarts its owner |
| `Flow.TargetsAreWires` | engine/flow/graph.go:488-494 | an output's target list has each endpoint once per wire leading to it |
| `Flow.TargetsInOrder` | engine/flow/graph.go:488-494 | the targets are where the wires leaving the output lead, all of them, in file order |
| `Deploy.NextKeeps` | engine/flow/graph.go:457-541 | every deploy, failed or refused, and every stop keeps: live inboxes open and distinct, each running node on its own live inboxes with the fingerprints its own implies |
| `Deploy.HistoryKeeps` | engine/flow/graph.go:457-541 | that invariant after any history of deploys and stops |
| `Deploy.ReceiverSafety` | engine/flow/graph.go:457-613 | after any history every running node receives on exactly the live, open inbox of each port it listens on |
| `Restarts.ConnectionsExact` | engine/flow/graph.go:618-775 | after any history a running node receives on all inputs, the first or none, as its kind has it, always on the live, open inbox, and sends on the outputs of its configuration, with the error port if its policy asks |
| `Deploy.StartedSenderExact` | engine/flow/graph.go:618-642 | a node a deploy starts holds one live, open inbox per wire leaving each port, in file order, none skipped |
| `Deploy.WiredPortsExist` | engine/flow/validate.go:97-99 | every validated wire leaves on a port its node captures at start |
| `Deploy.InboxIdentity` | engine/flow/graph.go:573-592 | across any history an inbox has the same wire if and only if its fingerprint was the same at every step; otherwise the old wire is closed for good |
| `Deploy.KeptSenderExact` | engine/flow/graph.go:496-592 | what a kept node sends to is the live inbox if and only if that inbox's fingerprint stayed the same in every deploy since the node started; otherwise it is a closed wire |
| `Deploy.AddedSourceStrandsSender` | engine/flow/graph.go:546-613 | deploying a second source onto an input keeps the first source running with a closed wire as target |
| `Deploy.RedeployIsNoOp` | engine/flow/graph.go:457-541 | deploying a file again changes no wire and, if the first deploy succeeded, no node and no start count |
| `Restarts.RestartExact` | engine/flow/graph.go:501-613 | over every history: a deploy, failed or not, leaves a running node alone if and only if the new file has its id with the same type, version, configuration, error policy, overflow, connection and disabled flag as the file it was started from, and the same wires at it; else it is gone or has one start more, and runs if the deploy succeeds and the file has it |
| `Restarts.SamePrintExact` | engine/flow/graph.go:597-613 | two files give a node the same fingerprint if and only if all that is the same |
| `Restarts.InboxKeptExact` | engine/flow/graph.go:546-592 | over every history: a deploy keeps an inbox's wire if and only if the new file has that input and the digests of overflow policy and sources, each as often as wired, agree with those of the last file that passed validation |
| `Deploy.QueueLostExact` | engine/flow/graph.go:573-592 | across any history an inbox's wire, with what is queued on it, still serves the inbox and is open if and only if the inbox's fingerprint was the same at every step; otherwise it is closed and no node ever receives on it again |
| `Deploy.StepLosesExactly` | engine/flow/graph.go:573-592 | one deploy or stop discards exactly the wires of the inboxes whose fingerprint it changes or drops |
| `FanOut.Reached` | engine/bus/fanout.go:28-35 | a send gets to exactly the wires before the first closed one |
| `FanOut.TakenExact` | engine/bus/fanout.go:28-35 | the copies are with the wires whose send was delivered, all of them, in order |
| `FanOut.Send` | engine/bus/fanout.go:28-35 | the sends end at the first closed or cancelled wire, copies are with exactly the wires before it that took theirs, drops do not stop it, it never passes a wire that was closed when it began, and unless it is cancelled or a wire closes under it, it gets exactly to the first such wire |
| `FanOut.KeptSenderReaches` | engine/bus/fanout.go:24-35 | a kept node's datagram gets to the live inbox of its n-th target if and only if no inbox up to and including that one changed fingerprint since the node started |
| `DeploymentModel.CollectSources` | engine/flow/graph.go:547-551 | the table of sources holds for each input the endpoints wired to it, with multiplicity |
| `DeploymentModel.CollectTargets` | engine/flow/graph.go:488-494 | the table of targets holds for each output where it leads, in file order |
| `DeploymentModel.ComputeInboxPrints` | engine/flow/graph.go:546-568 | the fingerprints of exactly the input ports of the file |
| `DeploymentModel.Deployment.constructor` | engine/flow/graph.go:124-146 | starts with nothing deployed |
| `DeploymentModel.Deployment.CloseUnwanted` | engine/flow/graph.go:573-580 | closes and forgets exactly the inboxes not asked for |
| `DeploymentModel.Deployment.ReconcileInboxes` | engine/flow/graph.go:573-592 | unchanged fingerprints keep their wire, others get fresh distinct ones, and exactly the replaced and unwanted wires are closed |
| `DeploymentModel.Deployment.InboxesForOutput` | engine/flow/graph.go:780-789 | the current inboxes of the targets, in order |
| `DeploymentModel.Deployment.CaptureOutputs` | engine/flow/graph.go:628-642 | resolves each output port against the inboxes there are now |
| `DeploymentModel.Deployment.StartNode` | engine/flow/graph.go:618-775 | a start succeeds exactly when it is not refused, and then adds the node with the inboxes of the moment and one more start; else nothing changes |
| `DeploymentModel.Deployment.StopAffected` | engine/flow/graph.go:501-518 | keeps exactly the nodes whose fingerprint is unchanged and remembers the starts of the others |
| `DeploymentModel.Deployment.StartMissing` | engine/flow/graph.go:530-538 | leaves kept nodes alone, starts the others, and succeeds exactly when none of those is refused, that is when all are running |
| `DeploymentModel.Deployment.DeployFile` | engine/flow/graph.go:457-541 | is a deploy step of the proved relation, and succeeds exactly for a well-formed file with no refused node to start |
| `DeploymentModel.StrandSender` | engine/flow/graph.go:457-613 | two deploys through the object that succeed and leave a running source with a closed wire |
| `DeploymentModel.Deployment.Stop` | engine/flow/graph.go:916-935 | closes every wire and forgets every node |
| `Slots.NextKeeps` | engine/flow/execution.go:132-290 | each read of the semaphore, send, receive, critical section and quiescent reconfiguration keeps: tokens equal to holders, stages consistent with the active set, a token for everyone about to receive from a replaced semaphore, and at most one report each |
| `Slots.SlotConservation` | engine/flow/execution.go:132-250 | in every run tokens equal starting, active and not yet released executions, active stay within the limit, and timers belong to active executions |
| `Slots.FinishedOnce` | engine/flow/execution.go:163-250 | whichever of last event, timeout and cancel wins, an execution is reported finished at most once and never while active, and a release never finds the semaphore empty |
| `Slots.StagesAdvance` | engine/flow/execution.go:132-250 | an execution only moves forward through its stages, and its status is fixed once it ends |
| `Slots.ReleasingKeeps` | engine/flow/execution.go:178-182 | looking for a limit, reading the semaphore and receiving from it each keep the invariant |
| `Tracker.StatusExact` | engine/flow/execution.go:201-221 | the status of a sequence of events is success exactly when none failed unhandled, else that of the last failure; pending is one plus outputs less events |
| `Slots.ReportedStatus` | engine/flow/execution.go:163-250 | in every run each reported status is a timeout, a cancellation, or the status of exactly the events accounted to that execution while it was active |
| `SlotRuns.AdmissionExact` | engine/flow/execution.go:135-149 | in every run whoever waits found its semaphore full while the setting in force was to queue; whoever is refused found it full while it was to reject, or gave up waiting |
| `SlotRuns.RejectNeverQueues` | engine/flow/execution.go:135-149 | set to reject, nobody ever waits |
| `SlotRuns.QueueNeverRefuses` | engine/flow/execution.go:135-149 | set to queue, nobody is refused who did not give up |
| `SlotRuns.NoLimitNoRefusal` | engine/flow/execution.go:132-149 | without a limit nobody waits and nobody is refused |
| `SlotRuns.LimitHolds` | engine/flow/execution.go:107-149 | active executions never exceed the limit last configured |
| `SlotRuns.TimersExact` | engine/flow/execution.go:151-176 | exactly the executions registered while timeouts were on can time out, and exactly the active ones among them still have a timer |
| `SlotRuns.EndsExact` | engine/flow/execution.go:163-250 | an active execution is ended by its timeout, its cancellation or an event that leaves nothing pending, by nothing else, and with the status due: timed out, cancelled, or that of its events |
| `SlotRuns.ComesToItsEnd` | engine/flow/execution.go:132-250 | wherever a run has brought it, an execution can come to be reported finished or to be refused, by its own steps and a cancellation |
| `Slots.ForcedExact` | engine/flow/execution.go:280-290 | replacing the semaphore at any moment keeps the tracker's invariant if and only if: with no limit afterwards, no release has already seen one; with one, nobody holds a slot but those already receiving from the old semaphore, and no start is about to send on it |
| `Reconfiguring.ReplaceExact` | engine/flow/execution.go:280-290 | under exactly that condition every continuation finds a token for each release and stays within the limit |
| `Reconfiguring.ReconfigureExact` | engine/flow/execution.go:265-290 | that of every moment of every run |
| `Reconfiguring.GuardInTokens` | engine/flow/execution.go:280-290 | where there was a limit the condition is that all tokens belong to releases already receiving and no start has read the semaphore |
| `Reconfiguring.ReleaseFindsEmpty` | engine/flow/execution.go:178-182 | otherwise some continuation has a release that finds the new semaphore empty and waits there |
| `Reconfiguring.ReleaseFindsNothing` | engine/flow/execution.go:178-182 | a release that saw a limit just before the limit was switched off reads a semaphore that is not there |
| `Reconfiguring.NeverReturns` | engine/flow/execution.go:178-182 | such a release never returns, whatever else happens |
| `Reconfiguring.LimitExceeded` | engine/flow/execution.go:132-182 | after every unsafe replacement, by whatever limit, some continuation has more than the limit active |
| `Reconfiguring.ExcessBounded` | engine/flow/execution.go:132-182 | in every continuation active executions exceed the limit by at most the executions the new semaphore did not know of |
| `Reconfiguring.LimitExceededExact` | engine/flow/execution.go:280-290 | more than the limit can come to be active if and only if there are such executions |
| `Reconfiguring.IdleIsNotQuiescent` | engine/flow/execution.go:265-269 | a start that has its slot but is not yet registered leaves the tracker idle, for every limit before and after, and reconfiguring then is not safe |
| `ExecTrackerModel.ExecTracker.constructor` | engine/flow/execution.go:107-122 | a consistent new tracker with a semaphore exactly for a positive limit |
| `ExecTrackerModel.ExecTracker.Elsewhere` | engine/flow/execution.go:135-182 | a step of a caller that does not touch the tracker's fields keeps it consistent |
| `ExecTrackerModel.ExecTracker.TryAcquire` | engine/flow/execution.go:135-140 | a start gets a slot exactly when fewer than the limit are held, else it is refused if the tracker rejects and waits if it queues; the protocol invariant is kept |
| `ExecTrackerModel.ExecTracker.AcquireQueued` | engine/flow/execution.go:141-147 | a queued start is turned away only while the limit is held in full |
| `ExecTrackerModel.ExecTracker.RegisterExecution` | engine/flow/execution.go:151-157 | a start that has its slot becomes a new active execution, active stay within the tokens and those within the limit, and the protocol invariant is kept |
| `ExecTrackerModel.ExecTracker.Remove` | engine/flow/execution.go:163-250 | of all who try to end an execution exactly the first finds it, with its own status, and the others change nothing |
| `ExecTrackerModel.ExecTracker.RecordEvent` | engine/flow/execution.go:192-225 | ends the execution exactly when the event leaves nothing pending, owing the status it returns; stragglers change nothing |
| `ExecTrackerModel.ExecTracker.ReleaseSlot` | engine/flow/execution.go:178-182 | an ended execution that has read the semaphore always finds a token to give back, and afterwards tokens again equal holders |
| `ExecTrackerModel.ExecTracker.ReconfigureLimits` | engine/flow/execution.go:280-290 | the tracker is consistent afterwards, and safe in every continuation, exactly under the condition of ForcedExact |
| `Runner.Handle` | engine/flow/runner.go:245-297 | the retry loop emits and reports the first success among the calls the policy allows, else applies the terminal policy to the last error; stopped in backoff it reports nothing |
| `Runner.PromisedUnique` | engine/flow/runner.go:245-297 | that promise admits one outcome only |
| `Runner.ReportMeaning` | engine/flow/runner.go:315-378 | a report counts the outputs sent, has an error exactly when no call succeeded, is a failure exactly when the datagram went nowhere and was not discarded by policy, and says the error port or the durable queue exactly when the policy asks for it and it is there |
| `Runner.CallsExact` | engine/flow/runner.go:245-297 | one call, or with retries that many more; the first success is emitted as it came, else the report has the error of the last call; nothing is reported exactly when the node is stopped before |
| `Runner.ExpiredIsNoFailure` | engine/flow/runner.go:229-238 | an expired datagram is consumed but does not fail its execution |
| `Completion.NextKeepsLaw` | engine/flow/runner.go:166-339 | each send, receive, emission, report, loss and retry changes the balance by exactly what that step lets escape |
| `Completion.AccountingLaw` | engine/flow/execution.go:192-225 | in every interleaving an active execution's pending count is its datagrams in flight, plus what outstanding reports will still take off, plus what the steps of the run have let escape |
| `Completion.CompletionExact` | engine/flow/execution.go:192-225 | a report ends its execution if and only if in-flight, escaped along the run and outstanding together are not positive |
| `Completion.EscapesDecide` | engine/flow/execution.go:192-225 | with no other report outstanding: nothing escaped, it ends exactly at the last datagram; more counted than delivered, not; more delivered than counted, early by that many |
| `Completion.CompletionSound` | engine/flow/runner.go:166-182 | one wire per emitted port, nothing lost or stored, no other report outstanding: Finished fires exactly when the last datagram is consumed |
| `Completion.NothingEscapes` | engine/flow/runner.go:299-311 | under those conditions nothing ever escapes the count |
| `Completion.NothingLeftMeansEnded` | engine/flow/execution.go:192-225 | under those conditions an execution with nothing in flight and nothing to report has ended |
| `Completion.EarlyOnlyBehindFanOut` | engine/flow/runner.go:256-266 | an early end needs another node of the execution with two or more outputs sent and not yet reported |
| `Completion.SplitTriggerEndsEarly` | engine/flow/runner.go:166-182 | a trigger feeding any number of wires above one: the first branch to finish ends the execution with the others in flight |
| `Completion.UnwiredTriggerNeverEnds` | engine/flow/runner.go:166-182 | a trigger feeding no wire: no continuation ever finishes the execution |
| `Completion.UnwiredOutputNeverEnds` | engine/flow/runner.go:299-311 | after an output on a port without wires no continuation short of timeout or cancellation ever ends the execution, with nothing of it left |
| `Completion.StuckForGood` | engine/flow/execution.go:192-225 | an active execution with nothing left anywhere and no report that lowers its count stays active forever |
| `Completion.StoredBalance` | engine/flow/runner.go:342-378 | in every run the datagrams in durable queues and those that came back are those that went there |
| `Completion.SplitOutputEndsEarly` | engine/flow/runner.go:299-311 | an output feeding any number of wires above one ends the execution at its first copy |
| `Completion.SentBeforeReportedEndsEarly` | engine/flow/runner.go:260-265 | sending before reporting lets a fast receiver end the execution while a datagram is queued |
| `Wire.StepKeepsInv` | engine/bus/wire.go:100-169 | every operation keeps accepted equal to removed plus queued, and the counters tied to both |
| `Wire.RunKeepsInv` | engine/bus/wire.go:100-169 | that invariant over every interleaving |
| `Wire.ReceivesInOrder` | engine/bus/wire.go:79-160 | under any policy the depth stays within capacity and what is received is an in-order, duplicate-free subsequence of what was accepted |
| `Wire.NothingAcceptedIsLost` | engine/bus/wire.go:108-128 | under block and dropNewest received plus queued is exactly what was accepted |
| `Wire.CountersAddUp` | engine/bus/wire.go:108-138 | each policy's exact balance of delivered, dropped, received and depth, with N/k evictions for N overflows sampled every k |
| `Wire.CloseDrains` | engine/bus/wire.go:143-169 | after close the queue is received to its end, then closed is reported forever |
| `Wire.ReceiveExact` | engine/bus/wire.go:143-160 | after any run a receive that is not cancelled returns and takes out the oldest accepted datagram still there, and waits only if there is none and the wire was not closed |
| `Wire.SendExact` | engine/bus/wire.go:100-139 | after any run a send is refused once closed, accepted while there is room, and on a full wire waits, evicts the oldest, is dropped, or evicts every k-th time, as the policy says; a sender that wakes gets through as soon as there is room; cancellation ends exactly the sends that would wait |
| `Wire.Ring.constructor` | engine/bus/wire.go:66-77 | an empty ring with capacity and sampling period of at least one |
| `Wire.Ring.PushLocked` | engine/bus/wire.go:83-87 | the ring's sequence grows at its end |
| `Wire.Ring.PopOldestLocked` | engine/bus/wire.go:91-95 | the ring's sequence loses its first element |
| `Wire.Ring.Send` | engine/bus/wire.go:100-139 | the ring buffer refines the bounded sequence for a send under every policy |
| `Wire.Ring.Wake` | engine/bus/wire.go:110-119 | so for a blocked send that wakes up |
| `Wire.Ring.Receive` | engine/bus/wire.go:143-160 | so for a receive |
| `Wire.Ring.Close` | engine/bus/wire.go:163-169 | so for a close |
| `StoreForward.RemoveKeepsInv` | engine/storeforward/queue.go:179-193 | removal keeps index, sizes, total and directory in agreement |
| `StoreForward.RemoveEvicted` | engine/storeforward/queue.go:232-236 | removing an entry that is already gone changes nothing |
| `StoreForward.MeasuredKept` | engine/storeforward/queue.go:108-193 | recorded sizes stay the sizes of the files through enqueues and removals |
| `StoreForward.AppendKeepsInv` | engine/storeforward/queue.go:108-131 | so does storing an entry |
| `StoreForward.FailedKeepsInv` | engine/storeforward/queue.go:108-128 | a failed write leaves queue and entries as they were, uses up a number, and leaves a temporary file exactly when the rename failed or part was written |
| `StoreForward.DropExpiredExact` | engine/storeforward/queue.go:142-163 | drops exactly the leading run of expired or unreadable entries |
| `StoreForward.DropOverflowExact` | engine/storeforward/queue.go:167-177 | drops the fewest oldest entries that make the rest fit |
| `StoreForward.EnqueueOptimal` | engine/storeforward/queue.go:108-177 | what remains is the longest suffix of the age-filtered queue with the new entry that fits, and the count returned is the number lost |
| `StoreForward.NewEntryLost` | engine/storeforward/queue.go:104-137 | the new entry itself is dropped if and only if it alone exceeds the size bound |
| `StoreForward.NothingExpiredStays` | engine/storeforward/queue.go:142-163 | with stamps in order no entry beyond the age limit remains |
| `StoreBounds.EnqueueExact` | engine/storeforward/queue.go:108-177 | on stamps and sizes: an enqueue drops the oldest entries up to the first readable one within the age limit of the new entry's time, then the fewest more without which the rest fits, and returns how many that was; the others stay as they are |
| `StoreBounds.SurvivorsAreFresh` | engine/storeforward/queue.go:142-163 | with stamps in order no entry older than the age limit is left |
| `StoreBounds.FilesFit` | engine/storeforward/queue.go:167-177 | the files left are within the size limit |
| `StoreForward.OpenedInv` | engine/storeforward/queue.go:60-101 | an index rebuilt from any directory agrees with it, sizes included |
| `StoreForward.EffectsComplete` | engine/storeforward/queue.go:108-193 | the disk effects of an enqueue, all applied, give its resulting directory |
| `StoreForward.CrashDuringEnqueue` | engine/storeforward/queue.go:60-177 | a crash between any two of them, then opening, gives the old entries, or the new queue less some of the entries being dropped, in order, with a consistent index |
| `StoreForward.CrashDuringRemove` | engine/storeforward/queue.go:179-193 | so for a removal: before or after, nothing between |
| `DiskQueueModel.BuildIndex` | engine/storeforward/queue.go:60-101 | whatever order the directory is listed in: ids ascending, sizes and total right, next number above all |
| `DiskQueueModel.DiskQueue.Open` | engine/storeforward/queue.go:60-101 | opens with that index, consistent with the directory |
| `DiskQueueModel.DiskQueue.RemoveLocked` | engine/storeforward/queue.go:179-193 | takes the entry out wherever it stands |
| `DiskQueueModel.DiskQueue.DropExpiredLocked` | engine/storeforward/queue.go:142-163 | the loop does what the age rule says, counts it, and deletes the files oldest first |
| `DiskQueueModel.DiskQueue.DropOverflowLocked` | engine/storeforward/queue.go:167-177 | so for the size rule |
| `DiskQueueModel.DiskQueue.EnqueueEntry` | engine/storeforward/queue.go:108-137 | an enqueue, with each way the write can fail, with or without a partial temporary file left behind, touches the disk in exactly the order of effects that crashes are proved to survive |
| `DiskQueueModel.DiskQueue.PeekEntry` | engine/storeforward/queue.go:209-228 | the oldest readable entry, corrupt ones dropped on the way |
| `Drain.NextKeeps` | engine/storeforward/drain.go:23-45 | every peek, delivery, removal and concurrent enqueue keeps queue, drop counts and one fate for every entry ever enqueued |
| `Drain.DeliversInOrder` | engine/storeforward/drain.go:23-45 | in every interleaving deliveries come in strictly increasing order, so at most once each |
| `Drain.NothingVanishes` | engine/storeforward/queue.go:142-236 | every entry ever enqueued is queued, delivered, dropped by the bounds or dropped as corrupt; counts returned add up to the bound drops; a delivered entry is removed or among those drops, never corrupt |
| `Drain.DeliveredAndDropped` | engine/storeforward/drain.go:35-43 | an entry evicted between its delivery and its removal is both delivered and counted as dropped |
| `Drain.DeliveredIsGone` | engine/storeforward/drain.go:35-43 | between rounds a delivered entry is no longer queued |
| `Drain.DeliversWhatWasStored` | engine/storeforward/drain.go:29-37 | what is delivered is the content stored under that number |
| `Drain.DrainsAll` | engine/storeforward/drain.go:23-45 | after any run, n rounds with successful deliveries deliver the intact ones of the n oldest entries in order and leave the rest; as many as there are entries empty the queue |
| `Drain.FailedDeliveryRetries` | engine/storeforward/drain.go:35-41 | a failed delivery leaves the queue as it was, and the next round takes the same entry |
| `SecsII.DecodeMeetsGrammar` | engine/nodes/secsii/item.go:267-412 | decoding succeeds with an item and a rest if and only if the bytes before the rest denote the item in the format's grammar |
| `SecsII.RoundTrip` | engine/nodes/secsii/item.go:161-412 | decoding an encoding, whatever follows it, gives the item back if and only if every node is well-formed with a count below 2^24 |
| `SecsII.EncodeInGrammar` | engine/nodes/secsii/item.go:161-261 | encodings of such items are in the grammar |
| `SecsII.EncodeShortest` | engine/nodes/secsii/item.go:115-180 | and no denotation of the item is shorter: length bytes are as few as possible |
| `SecsII.DecodeCanonicalises` | engine/nodes/secsii/item.go:267-412 | what was decoded re-encodes to no more bytes than were consumed and decodes to itself |
| `SecsII.UniqueReading` | engine/nodes/secsii/item.go:267-412 | the grammar is prefix-free and unambiguous |
| `SecsIITables.DecodeReads` | engine/nodes/secsii/item.go:267-412 | in plain numbers: format byte and length bytes of every item, each value within the range of its format and equal to its big-endian bytes or those less two to the width, the text bytes as they are, and the rest behind them |
| `SecsIITables.EncodeWrites` | engine/nodes/secsii/item.go:20-180 | in plain numbers: the format byte of every item with as few length bytes as its size needs, the size, the data, one for true and zero for false |
| `SecsIITables.RangeExact` | engine/nodes/secsii/item.go:80-96 | the values each numeric format holds |
| `SecsIITables.ErrorExact` | engine/nodes/secsii/item.go:267-290 | which malformed header gets which error |
| `SecsIITables.LeafExact` | engine/nodes/secsii/item.go:304-412 | an item that is no list is read exactly when its size is whole elements and all its bytes are there |
| `SecsIITables.ListExact` | engine/nodes/secsii/item.go:292-303 | a list is read as its declared number of items, or gets their error |
| `SecsIITables.ListErrorExact` | engine/nodes/secsii/item.go:292-303 | which is the error of the first element that fails |
| `SecsII.PutWords` | engine/nodes/secsii/item.go:202-257 | numeric arrays are laid out big-endian in the width of their format |
| `SecsII.EncodeBody` | engine/nodes/secsii/item.go:182-261 | the body of every format |
| `SecsII.EncodeItem` | engine/nodes/secsii/item.go:161-180 | the buffer-filling encoder computes the encoding |
| `SecsII.GetValues` | engine/nodes/secsii/item.go:337-408 | the array loops read back every width and sign |
| `SecsII.GetBools` | engine/nodes/secsii/item.go:309-317 | any non-zero byte is true |
| `SecsII.DecodeItem` | engine/nodes/secsii/item.go:267-412 | the recursive decoder computes the decoding, errors included, on every byte string |
| `SecsII.DecodeItems` | engine/nodes/secsii/item.go:292-303 | so for the elements of a list |
| `HsmsMessage.DataHeaderFields` | engine/nodes/hsms/message.go:84-100 | a data header gives back W-bit and function, and the stream exactly when it is below 128 |
| `HsmsMessage.HeaderRoundTrip` | engine/nodes/hsms/message.go:102-125 | decoding an encoded header gives it back |
| `HsmsMessage.HeaderInverse` | engine/nodes/hsms/message.go:102-125 | every ten bytes are the encoding of the header they decode to |
| `HsmsMessage.RoundTripExact` | engine/nodes/hsms/message.go:142-173 | a message is read back with what follows it if and only if header and body are within 16 MiB |
| `HsmsMessage.TooLongRefused` | engine/nodes/hsms/message.go:158-163 | a longer one whose length fits its field is refused |
| `HsmsMessage.ReadIsEncoding` | engine/nodes/hsms/message.go:152-173 | what is read is the encoding that was there |
| `HsmsMessage.MoreBytes` | engine/nodes/hsms/message.go:152-173 | later bytes never change a block already complete or already refused |
| `HsmsMessage.StreamRoundTrip` | engine/nodes/hsms/message.go:142-173 | a stream of messages within the limit is read back in order |
| `HsmsMessage.Layout` | engine/nodes/hsms/message.go:102-149 | the bytes of a message in plain numbers |
| `HsmsMessage.ReadExact` | engine/nodes/hsms/message.go:152-173 | which bytes are a whole message, and which; which are too few; and which no message, in plain numbers |
| `HsmsMessage.EncodeMessage` | engine/nodes/hsms/message.go:142-149 | the fresh buffer holds the encoding |
| `HsmsMessage.Reader.ReadMessage` | engine/nodes/hsms/message.go:152-173 | reads one block and stands behind it, or says short or corrupt |
| `HsmsSelect.NextKeeps` | engine/nodes/hsms/conn.go:174-438 | every step of either side keeps the streams equal to what is unread, the session id in all traffic, and the handshake order |
| `HsmsSelect.RunKeeps` | engine/nodes/hsms/conn.go:174-438 | that invariant in every run |
| `HsmsSelect.SelectAgreement` | engine/nodes/hsms/conn.go:174-229 | whenever a side is selected the listener has adopted the dialler's session id and answered OK; every data message either side ever sends bears that id |
| `HsmsSelect.DeliversWhatWasSent` | engine/nodes/hsms/conn.go:243-279 | the byte stream to a side is the encoding of what the other sent and it has not read, and the next one within the limit is read whole |
| `HsmsHandshake.HandshakeCompletes` | engine/nodes/hsms/conn.go:174-229 | left to itself, in whatever order, the handshake takes at most seven steps, can go on until both sides are selected and no further, and both are then up with the dialler's session id |
| `HsmsHandshake.SelectSucceeds` | engine/nodes/hsms/conn.go:174-229 | for all session ids such a run, with the two messages it takes |
| `HsmsHandshake.ReplyDecides` | engine/nodes/hsms/conn.go:187-196 | in every run the dialler is selected by its reply if and only if that has type 2 and status 0, else its socket is closed; the listener that has answered becomes selected |
| `HsmsHandshake.ReaderExact` | engine/nodes/hsms/conn.go:243-320 | in every run what the reader does with each kind of message, and what it answers |
| `HsmsHandshake.NoDataBeforeSelect` | engine/nodes/hsms/conn.go:386-438 | in every run no side sends data before the listener has answered OK with the dialler's session id |
| `HsmsHandshake.ReachesPeer` | engine/nodes/hsms/conn.go:360-461 | in every run a Linktest.req is answered with its system bytes, a Separate.req ends the session on both sides, and data comes to the other side's callers as it was sent |
| `HsmsHandshake.EndsTheSession` | engine/nodes/hsms/conn.go:326-336 | whoever quits, closes, fails or separates is down; who is down stays down and sends nothing; a caller may send exactly after it has seen its side selected |
| `HsmsHandshake.NothingInTheWay` | engine/nodes/hsms/conn.go:386-469 | a caller can always look, separate and close, a handshake under way be given up, and who has seen its side selected send what the length field can hold |
| `HsmsHandshake.NumbersInOrder` | engine/nodes/hsms/conn.go:156-158 | in every run a side numbers what it starts of itself one, two, three and so on, round at 2^32 |
| `HsmsRouting.NextKeeps` | engine/nodes/hsms/conn.go:301-420 | every step keeps: table entries are unanswered requests under their own system bytes and, below 2^32 numbers, every unanswered request is in the table or its reply in the reader's hand |
| `HsmsRouting.RunKeeps` | engine/nodes/hsms/conn.go:301-420 | that in every run |
| `HsmsRouting.AtMostOneReply` | engine/nodes/hsms/conn.go:301-310 | whatever the peer sends, a request is given at most one message and only one with its system bytes |
| `HsmsRouting.ReaderNeverBlocks` | engine/nodes/hsms/conn.go:301-310 | the reader always finds room in a reply channel |
| `HsmsRouting.EndsForGood` | engine/nodes/hsms/conn.go:399-420 | a request ends with the one message in its channel or without, and for good |
| `HsmsRouting.RecvInOrder` | engine/nodes/hsms/conn.go:311-320 | in every run what the user took, the at most sixteen waiting and the one in the reader's hand are the unsolicited messages as they arrived |
| `HsmsRouting.ControlIsNotRouted` | engine/nodes/hsms/conn.go:281-300 | a message the reader answers itself goes to nobody |
| `HsmsRouting.SameSystemExact` | engine/nodes/hsms/conn.go:156-158 | two requests share system bytes if and only if their numbers are a multiple of 2^32 apart |
| `HsmsRouting.NoCrossTalk` | engine/nodes/hsms/conn.go:301-420 | below 2^32 numbers a message with one request's system bytes is never given to another |
| `HsmsRouting.RoutingExact` | engine/nodes/hsms/conn.go:282-317 | below 2^32 numbers a message goes to a request if and only if that request is unanswered and has its system bytes, and data goes to Recv if and only if there is none; nothing else in the message matters |
| `HsmsRouting.LateReply` | engine/nodes/hsms/conn.go:301-320 | a message with a request's system bytes goes to that request if and only if it is unanswered; if and only if it gave up, was answered or is not registered, the message is Recv's as data and dropped otherwise |
| `HsmsRouting.OwnEntryOnly` | engine/nodes/hsms/conn.go:360-420 | below 2^32 numbers neither giving up nor registering touches another request's entry |
| `HsmsRouting.PrimaryTakenForReply` | engine/nodes/hsms/conn.go:301-310 | for instance a message the peer starts itself completes the first request; RoutingExact says exactly when |
| `HsmsRouting.FirstMessageCompletes` | engine/nodes/hsms/conn.go:301-310 | in every state the first message with a waiting request's system bytes, of whatever stream, function and W-bit, completes it |
| `HsmsRouting.LateReplyAfterWrap` | engine/nodes/hsms/conn.go:156-158 | after 2^32 numbers a late reply is given to a different request |
| `HsmsRouting.Conn.NextSystemBytes` | engine/nodes/hsms/conn.go:156-158 | below 2^32 numbers the system bytes given out are those of no request; the protocol invariant is kept |
| `HsmsRouting.Conn.BeginRequest` | engine/nodes/hsms/conn.go:390-391 | a request's system bytes are those of no other; the protocol invariant is kept |
| `HsmsRouting.Conn.OpenRequest` | engine/nodes/hsms/conn.go:392-394 | from now on the request's system bytes lead to it, and every other unanswered request keeps its entry |
| `HsmsRouting.Conn.ForgetRequest` | engine/nodes/hsms/conn.go:407-417 | no entry leads to the request any more, and every other unanswered request keeps its own |
| `HsmsRouting.Conn.Claim` | engine/nodes/hsms/conn.go:301-306 | a message is claimed for an unanswered request with its system bytes, whose channel has room |
| `Framing.Index` | engine/nodes/framing/framing.go:121-128 | the first occurrence of the delimiter, or none |
| `Framing.UnescapeExact` | engine/nodes/framing/framing.go:166-171 | the three replacements of a delimiter's escapes are one left-to-right reading: backslash n, r and t become bytes 10, 13 and 9, all else stays |
| `Framing.ExtractExact` | engine/nodes/framing/framing.go:119-154 | the next frame of a buffer in every mode, with prefixes of one, two and four bytes in both orders |
| `Framing.ExtractExtends` | engine/nodes/framing/framing.go:119-154 | a frame already complete is not changed by later bytes |
| `Framing.ExtractSound` | engine/nodes/framing/framing.go:119-154 | frame, framing and rest rebuild the buffer |
| `Framing.ExtractComplete` | engine/nodes/framing/framing.go:119-154 | a framed payload is extracted as such |
| `Framing.FramesRoundTrip` | engine/nodes/framing/framing.go:67-154 | framing a list of payloads and extracting gives them back if and only if each can be carried and the tail holds no frame |
| `Framing.ChunkingInvariance` | engine/nodes/framing/framing.go:67-117 | without a limit error frames and leftover are a function of the concatenated bytes |
| `Framing.IdealRun` | engine/nodes/framing/framing.go:67-117 | in timeout mode too a run gives what it would without a limit: a frame for each pause |
| `Framing.SameBytesSameFrames` | engine/nodes/framing/framing.go:67-117 | so two ways of polling the same bytes give the same frames |
| `Framing.LimitErrorExact` | engine/nodes/framing/framing.go:86-117 | in every mode, when exactly the size limit ends a run |
| `Framing.FramesBeforeLimit` | engine/nodes/framing/framing.go:86-117 | in every mode, which frames were emitted before it did |
| `Framing.FirstReadLimit` | engine/nodes/framing/framing.go:70-90 | a first read hits the limit exactly when it brings more than the configured size, by default 1048576 |
| `Framing.LimitFreeExact` | engine/nodes/framing/framing.go:77-95 | no way of reading the bytes in reads of up to 4096 hits the limit if and only if no stretch of that length brings more than the limit on top of what is unframed before it; never for bytes within the limit |
| `Framing.LimitDependsOnChunking` | engine/nodes/framing/framing.go:86-117 | the same bytes fail in one read and pass in two |
| `Framing.TimeoutKeepsBytes` | engine/nodes/framing/framing.go:67-117 | in timeout mode frames and leftover are the bytes received, in order |
| `Framing.ExtractLoop` | engine/nodes/framing/framing.go:96-108 | the inner loop ends and extracts all frames there are |
| `Framing.RunLoop` | engine/nodes/framing/framing.go:67-117 | the polling loop refuses invalid configurations and otherwise computes the run |
| `Join.StepKeepsInv` | engine/nodes/merge/merge.go:176-239 | an arrival keeps: no key on both sides, fates and outputs in agreement, nothing stale afterwards |
| `Join.RunKeepsInv` | engine/nodes/merge/merge.go:176-239 | that over every run with a clock that does not go back |
| `Join.PairsAreJoins` | engine/nodes/merge/merge.go:176-216 | pairs are of equal keys, one from each side, within the window |
| `Join.OneOutputEach` | engine/nodes/merge/merge.go:176-239 | each arrival appears in at most one output |
| `JoinFates.FateExact` | engine/nodes/merge/merge.go:176-239 | the fate of every arrival as the arrivals alone determine it: joined to the partner it finds, else settled by the first later arrival of its key or beyond the window, as replaced, joined, too late, emitted alone or expired |
| `JoinFates.LossesExact` | engine/nodes/merge/merge.go:198-239 | an arrival ends up neither waiting nor in an output if and only if it found no partner and its settler replaces it, comes too late for it, or has another key and no left join keeps it |
| `JoinFates.LeftJoinLoses` | engine/nodes/merge/merge.go:198-239 | a left join loses an a-side arrival if and only if its settler has its key and came on port a or too late |
| `Join.StaleLeftItemIsLost` | engine/nodes/merge/merge.go:204-206 | a stale left item met by its key is evicted without output |
| `Join.ArrivalsBalance` | engine/nodes/merge/merge.go:176-239 | arrivals are twice the pairs plus left-emitted, waiting, replaced, hit stale and expired |
| `JoinFates.BalanceExact` | engine/nodes/merge/merge.go:176-239 | arrivals are twice the pairs plus left-emitted, waiting and exactly those losses |
| `Join.Node.SweepSide` | engine/nodes/merge/merge.go:221-239 | the sweep deletes exactly the stale keys, each once |
| `Join.Node.ExpireStale` | engine/nodes/merge/merge.go:221-239 | and a left join emits each evicted a-side item once |
| `Join.Node.ProcessJoin` | engine/nodes/merge/merge.go:176-216 | the new pending maps and exactly the outputs of the specification, none doubled |
| `Throttle.StepKeepsInv` | engine/nodes/delay/delay.go:134-173 | each pass keeps the pruned window representing every release that can still matter |
| `Throttle.AdmitExact` | engine/nodes/delay/delay.go:134-158 | a datagram passes if and only if fewer than the limit were released in the interval before it, over the whole history |
| `Throttle.RateBound` | engine/nodes/delay/delay.go:134-173 | every closed interval of the configured length holds at most the limit of releases per key |
| `Throttle.WakeUpExact` | engine/nodes/delay/delay.go:150-163 | when exactly a refused datagram would pass: strictly after the computed wake-up time |
| `Throttle.Node.PruneWindow` | engine/nodes/delay/delay.go:166-173 | the index loop keeps what is not older than the cutoff |
| `Throttle.Node.ApplyThrottle` | engine/nodes/delay/delay.go:134-164 | waits through the clock readings to the first that admits, records it, and changes nothing if cancelled |

## Left out

- Connectors, control plane, authentication, script and expression nodes: outside this core.
- FanOut.Send: how the send on each wire ends is given; the copying of payloads is left out.
- DeploymentModel.Deployment.DeployFile: does not model a stopped node that outlives the drain timeout, ring buffers, limiters, metrics, replay and dead letters.
- Flow.Validate: does not model the texts of the problems, only whether there are any; schema and factory errors are one case.
- Inbox overflow policies as parsed by parseOverflow: they matter to a wire, not to which wire is kept.
- Slots.SlotConservation: assumes reconfiguration in quiescent states and fresh execution ids; ReconfigureExact says what happens otherwise.
- Reconfiguring.ReconfigureExact: is about one replacement out of turn; the continuations it speaks of reconfigure in quiescent states only.
- Deploy.QueueLostExact: is about the states between deploys; between the closing of a wire and the stop of its node the node may still receive from it.
- Completion.CompletionSound: assumes outputs keep the correlation id of their input; nodes that start a new one are not modelled.
- Runner.Handle: backoff durations, metrics, dead-letter and error-flow publication are left out.
- Wire.Ring.Send: the condition variables are left out; a blocked send is a step that comes back through Wake.
- StoreForward.CrashDuringEnqueue: assumes the directory holds only the queue's own files and that deleting a file succeeds.
- StoreForward.MeasuredKept: a file that goes bad on disk may change size without the index noticing, so drains with decaying files do not keep it.
- Drain.DeliversInOrder: covers runs without a crash; backoff and idle waits are left out.
- SecsII.DecodeItem: error texts, including the wrapping of a list element's error, are one error value.
- HsmsSelect.SelectAgreement: timers are free choices; message bodies of 4 GiB and more, whose length field would wrap, are excluded.
- HsmsSelect.SelectAgreement: a reply is assumed to answer a message the side has received.
- HsmsRouting.LateReply: the deadline of the wait is a free choice.
- Framing.RunLoop: errors of the poll and frame callbacks and cancellation are left out.
- Join.Node.ProcessJoin: steps are sequential; the key expression is a parameter.
- Throttle.RateBound: needs a clock that does not go back, as the source does.
- The other modes of merge and delay (combine latest, batch, plain delay): they would only add easy members.
