# conductor-rs in Dafny

A model of the parts of conductor-rs that hold hard state, and proofs about whole runs of them:

- the Raft store (`MemoryRaftStore`): log window, fold of unsafe payloads, snapshots, JSON image on disk;
- the conductor's control machine: the action's decision table, pause, resume and stop, safe start;
- the control loop with its watch channel, and the flashblocks fan-out hub;
- the file payload store, the evicting counter, the round-robin transfer and the hexadecimal quantities.

Objects whose methods update fields are classes proved against functions on values; what is promised
over runs and interleavings is proved about state machines built from those same functions. Remote
calls, timers, randomness and scheduling are arguments or nondeterministic steps. `dafny verify
dfyconfig.toml` checks the project.

## Assumptions

- openraft calls the log store with consecutive entries after the current end and never purges below an
  earlier purge. Everything it elects or replicates is outside the model.
- JSON encoding loses nothing, a rename is atomic, and synced file content survives a crash. Unsynced
  content may turn into anything, and a rename whose directory has not been synced may be undone: a crash
  then brings back any version since the last sync. The disk of Replicas is what survives. A crash is one of
  the machine; a restart of the process alone loses memory and keeps every version of the file.
- In Convergence health is fixed and leadership changes only through the conductor's own transfers. That an
  accepted transfer takes it away is proved for `LocalConsensus`; for Raft it is not assumed, and a transfer
  without effect is counted.
- In Takeover and Convergence an action is one step: it reads health and activity once, so a store of either
  that falls inside it has the effect of one just before or just after. SingleActive splits the action up.
- A node that answers "already stopped" does not run (SingleActive), and a node's chain only grows during
  one start attempt (SafeStart); both are written as preconditions.

## What turned out not to hold

- `persist_to_disk` reads its fields one at a time, so an image can pair the log left by a purge with the
  last-purged id from before it. `Durability.ImageHeldTogetherIff` says for every persist of every run
  exactly when its pair was in memory at one moment, `Durability.TornImageReachable` gives a run in which it
  was not, and `RaftStore.WindowStartDetermined` says when such an image is still a proper log window.
- Both stores acknowledge although the sync of the directory failed, and a crash can then undo what was
  acknowledged. `Durability.AtRiskIffNotSynced` and `FileStore.CrashSafety` give the exact condition,
  `Durability.AckedVoteLost` and `FileStore.AckedPayloadLost` a run each.
- Failing ticks reset the retry timer, so a due attempt of the control loop can be put off without end
  (`ControlLoop.TicksMayPostponeForever`). Nothing else puts it off (`ControlLoop.OnlyFailingTicksPostpone`),
  and each such tick has acted itself (`ControlLoop.FailingTickHasActed`).
- `should_snapshot` subtracts indices rather than counting entries; `RaftStore.TriggerExactIff` gives the
  exact condition under which the two agree.
- `parse_quantity` and the proxy's decoder accept different strings: `Payload.ParsersCompared` says exactly
  which of them accepts alone, `0X5` on one side (`Payload.DecoderAlone`) and `0x01`, `0x+5` or decimal text
  on the other (`Payload.ParserAlone`).
- An error of the head check before a parameterless start whose message speaks of an already started
  sequencer passes for a successful start although none was sent: `SafeStart.SuccessWithoutAnyCall`, and
  `SafeStart.SuccessMeansStartedIff` for the exact condition.
- After an unhealthy takeover the node does not always wait: with the builder partially healthy or the
  connection down the next action undoes it (`Takeover.WaitsIffMayRecover`, with the exact condition).
- A successful tick whose activity call failed leaves a follower's sequencer off if and only if it was off
  before or the cache said active (`SingleActive.FollowerTickMeaning`).
- With Raft, round robin and a lone voter a transfer is answered Ok and changes nothing: the actions then
  come to rest if and only if the node is not bound to hand over (`Convergence.LoneVoterRestsIff`).
- After more than a thousand distinct intervals the counter forgets. `Counter.VerdictDiffersIff` gives, for
  every clock, the exact condition for a wrong verdict, and `Counter.SteppingBackToleratesAgain` one.

## Model

| member | source | states |
|---|---|---|
| Replicas.ReplicasConverge | src/raft_consensus.rs:1230-1342 | In every run of a cluster over one committed log (apply batches of any size, snapshot build and install, field-wise disk writes, crash and reopen), two nodes with the same last-applied index, at any two moments, hold the same state machine, namely the replay of the log up to there |
| Replicas.SnapshotPlusSuffix | src/raft_consensus.rs:1328-1342 | Any snapshot ever built, however it travelled, followed by the log after its last id equals replaying the whole log |
| Replicas.InvStep | src/raft_consensus.rs:1230-1342 | Every step keeps every machine and snapshot, in memory and on disk, equal to the replay of its prefix |
| Replicas.StepProgress | src/raft_consensus.rs:1230-1342 | Applying moves a node on by exactly its batch, installing takes it to exactly the last id and membership of the snapshot, building offers what it has applied, and no step touches another node |
| RaftTypes.ApplyAllConcat | src/raft_consensus.rs:1273-1318 | How the log is cut into apply batches does not matter |
| RaftTypes.ReplayMeaning | src/raft_consensus.rs:1280-1309 | A replayed log is exactly the id of its last entry, its last membership entry, and the earliest payload with the greatest block number |
| Durability.AckedWritesStay | src/raft_consensus.rs:1154-1226 | Under every interleaving of storage calls, from the moment a call acknowledges, disk and memory hold its write or a newer one for each field it wrote: after any crash if its directory sync worked, otherwise until a crash brings back an older version |
| Durability.DiskNeverGoesBack | src/raft_consensus.rs:1053-1086 | The oldest version a crash can bring back never gets older, restarts and crashes included, and the file itself goes back only at a crash that undoes a rename |
| Durability.AtRiskIffNotSynced | src/raft_consensus.rs:1079-1084 | In every run, with no crash since a moment the oldest version lacked given writes but any number of process restarts, the next crash can lose them if and only if no directory sync has worked since while the file held them |
| Durability.AckedVoteLost | src/raft_consensus.rs:1080-1085 | A run in which an acknowledged vote is gone after a crash |
| Durability.AckCoversCall | src/raft_consensus.rs:1154-1260 | An acknowledged call carries a stamp for exactly the fields that call writes |
| Durability.PersistAlone | src/raft_consensus.rs:1057-1079 | A persist not disturbed while it reads puts what it has read followed by current memory on disk, so the whole of memory when undisturbed from the start |
| Durability.ImageHeldTogetherIff | src/raft_consensus.rs:1057-1079 | Every rename of every run puts on disk a last-purged id and a log read at two moments, and memory held that pair at once at some moment in between if and only if no write of the last-purged id is followed by a write of the log between the two reads |
| Durability.LaterFieldsNotOlder | src/raft_consensus.rs:1058-1066 | The order of the reads: for every rename of every run, if the image shows a write of some field made since the last restart or crash, or a newer one, it shows every field read after that one at least as memory held it at that write; so no purged log reaches the disk without the machine and snapshot memory held at the purge |
| Durability.FieldKeptIff | src/raft_consensus.rs:1154-1226 | Between restarts and crashes a field keeps its value over exactly the stretches in which no call writes it |
| Durability.PurgeBetweenReadsTears | src/raft_consensus.rs:1058-1066 | Wherever a persist stands between the reads of the last-purged id and of the log, a purge can run so that half of it ends up on disk |
| Durability.TornImageReachable | src/raft_consensus.rs:1212-1226 | Such an image is reachable with one state machine call and one purge under way |
| RaftStore.WindowStartDetermined | src/raft_consensus.rs:1212-1223 | A log is a proper window for another start if and only if the starts are equal or it is empty |
| RaftStore.OpenStore | src/raft_consensus.rs:998-1021 | A file that holds an image opens as that image field by field and is written back; a missing or empty one opens as the initial store; unreadable and corrupt ones are errors; a windowed image opens as a valid store |
| RaftStore.Reopen | src/raft_consensus.rs:998-1086 | Round trip: a durable store whose last call was acknowledged comes back as the same store, with every field and the same log window |
| RaftStore.MemoryRaftStore.PersistToDisk | src/raft_consensus.rs:1053-1086 | With calls serialised, an acknowledged persist leaves the whole image on disk and a failed one the old image |
| RaftStore.MemoryRaftStore.Append | src/raft_consensus.rs:1173-1194 | Consecutive entries extend the window by exactly the batch; image persisted if acknowledged |
| RaftStore.MemoryRaftStore.TruncateAfter | src/raft_consensus.rs:1196-1210 | The window keeps its start and loses what lies after the given id; only the log is written |
| RaftStore.KeptMeaning | src/raft_consensus.rs:1196-1210 | Exactly the entries with an index up to the given one are left, as a prefix |
| RaftStore.MemoryRaftStore.Purge | src/raft_consensus.rs:1212-1226 | The window starts just after the purged id, also when that lies past the end of the log; only last-purged id and log are written |
| RaftStore.UnpurgedMeaning | src/raft_consensus.rs:1212-1226 | Exactly the entries with an index above the purged one are left |
| RaftStore.MemoryRaftStore.GetLogState | src/raft_consensus.rs:1135-1148 | Reports the true ends of the window; an empty window ends at the last purged id |
| RaftStore.MemoryRaftStore.TryGetLogEntries | src/raft_consensus.rs:1114-1125 | A range read returns exactly the entries with an index in the range, ascending, as one slice of the window |
| RaftStore.WalkUp | src/raft_consensus.rs:1121-1124 | Walking a contiguous key range of the ordered map yields its values by ascending key |
| RaftStore.MemoryRaftStore.SaveVote | src/raft_consensus.rs:1154-1158 | Stores the vote, keeps the log, persists if acknowledged |
| RaftStore.MemoryRaftStore.SaveCommitted | src/raft_consensus.rs:1160-1167 | Stores the committed id, keeps the log, persists if acknowledged |
| RaftStore.MemoryRaftStore.ShouldSnapshot | src/raft_consensus.rs:1027-1051 | True exactly when the last log index lies at least the threshold above the last id of the snapshot, or above the beginning without one; as long as no purge passed the snapshot, that is the number of log indices it does not cover |
| RaftStore.TriggerExactIff | src/raft_consensus.rs:1034-1050 | The trigger counts uncovered indices for every threshold if and only if no purge passed the snapshot or the log is empty |
| RaftStore.MemoryRaftStore.BuildSnapshot | src/raft_consensus.rs:1230-1260 | The snapshot holds the state machine, its last id and membership, under the next number; only snapshot and number are written |
| RaftStore.MemoryRaftStore.InstallSnapshot | src/raft_consensus.rs:1328-1342 | Undecodable bytes change nothing; otherwise machine and snapshot are both replaced |
| RaftStore.MemoryRaftStore.Apply | src/raft_consensus.rs:1273-1318 | Valid batches fold into the machine and are answered with the payload each entry found; the first invalid payload ends the call unpersisted and unanswered |
| Commit.CommitSemanticsAgree | src/raft_consensus.rs:1284-1300 | The Raft fold and the file store both keep the earliest payload with the greatest block number of any valid sequence, and neither fails |
| Commit.EarliestHighestUnique | src/store.rs:87-100 | That reference admits one answer only |
| Commit.DecisionsOnAnyInput | src/store.rs:87-100 | On any input: the file store refuses exactly invalid payloads, and everything while the number it holds cannot be read; Raft replaces what it cannot read |
| FileStore.Open | src/store.rs:39-54 | Opening yields what the main file says, nothing for a missing file, an error for unreadable bytes |
| FileStore.FilePayloadStore.Persist | src/store.rs:56-82 | Succeeds exactly when every file operation but the ignored directory sync does; on failure the main file is the old one; a crash at any disk state on the way reopens at the new payload or a version from before the call, and afterwards only a failed directory sync leaves an old version to come back |
| FileStore.FilePayloadStore.Commit | src/store.rs:87-100 | Acknowledged exactly when ignored or fully written; a failure leaves memory and every version of the main file as they were |
| FileStore.CrashSafety | src/store.rs:39-100 | In every run with failures and crashes, a crash at any moment reopens without error, and always at the last acknowledged payload or the one in flight if and only if the node is not exposed |
| FileStore.ExposedIffUnsettled | src/store.rs:75-80 | A node is exposed exactly from an acknowledgement whose directory sync failed, or a process restart between rename and sync, to the next commit whose sync works or the next crash of the machine; process restarts do not end it |
| FileStore.DropsIffExposed | src/store.rs:56-100 | The next step can take the block number held down if and only if the node is exposed |
| FileStore.HeldNumberNeverDrops | src/store.rs:87-100 | Across commits, failures, crashes and reopenings the block number held never goes down, as long as no crash hits an exposed node |
| FileStore.AckedPayloadLost | src/store.rs:75-81 | A run in which the first payload acknowledged is gone after a crash |
| LocalConsensus.LocalConsensus.TransferLeaderTo | src/consensus.rs:271-285 | Leadership is given up exactly when the target is known under that address |
| LocalConsensus.LocalConsensus.TransferLeaderInternal | src/conductor.rs:614-632 | Over this consensus, with and without round robin, the conductor's transfer gives leadership up exactly when it answers Ok, and fails exactly for a rotating leader that is not itself among at least two voters |
| LocalConsensus.LocalConsensus.CommitUnsafePayload | src/consensus.rs:287-293 | Followers refuse without touching the store; a leader commits as the store does |
| Conductor.Conductor.ActionLocked | src/conductor.rs:463-523 | The method makes the calls, leaves the fields and gives the result of the action characterised in the next row |
| Conductor.ActionMeaning | src/conductor.rs:463-561 | For every state and every answer, from leadership, activity, verdict and recorded state alone: exactly when an action starts, stops and hands over, in which order, with which result for each combination of failures, and that the status seen is recorded exactly on success |
| Conductor.Conductor.StopAndTransferLeader | src/conductor.rs:530-542 | Leadership is handed over even if the stop failed, and errors are combined |
| Conductor.Conductor.StopSequencer | src/conductor.rs:544-561 | Already stopped counts as stopped; a refusal leaves the cached activity |
| Conductor.Conductor.Tick | src/conductor.rs:390-412 | The method follows the tick characterised in the next row; `SingleActive.WholeTickIsTick` ties it to the interleaved steps |
| Conductor.TickMeaning | src/conductor.rs:390-412 | A tick records the verdict, or a lost connection if the activity call failed, and makes the calls due for the activity answered, or else cached; paused it only refreshes, once stopping it does nothing |
| Conductor.UnansweredTickStartsNothing | src/conductor.rs:403-408 | A tick whose activity call failed never starts a sequencer |
| Conductor.Conductor.Pause | src/conductor.rs:304-311 | Sets the flag unless stopped |
| Conductor.Conductor.Resume | src/conductor.rs:313-322 | Refreshes activity and clears the flag, or changes nothing |
| Conductor.Conductor.Stop | src/conductor.rs:324-335 | A failed shutdown leaves the conductor stopping, a successful one stopped |
| Convergence.ActionProgress | src/conductor.rs:475-561 | Every action outside rest lowers a rank, except for at most three per setback, a setback being a call that failed or an accepted transfer without effect |
| Convergence.ActionsConverge | src/conductor.rs:463-561 | With health fixed and leadership changed only by own transfers, any sequence of actions longer than three per setback plus three ends where no start, stop or transfer is ever issued again |
| Convergence.ActLocally | src/conductor.rs:463-632 | One action of the conductor object over a local consensus object, for either round-robin setting, is that step, and its accepted transfer always takes effect |
| Convergence.LocalActionsConverge | src/consensus.rs:266-285 | So over the local consensus only failed calls delay rest |
| Convergence.LoneVoterRestsIff | src/conductor.rs:634-643 | If every call is accepted and no transfer has effect, the actions come to rest if and only if the node is not an unhealthy leader bound to hand over now or right after its takeover |
| Convergence.SettledIffRankZero | src/conductor.rs:475-512 | Rank zero is exactly that state of rest |
| Convergence.RestShape | src/conductor.rs:475-528 | It rests exactly as an inactive follower, a healthy active leader, or a leader waiting for recovery |
| Takeover.OneTakeoverPerFollowerPeriod | src/conductor.rs:486-521 | Between two successful unhealthy starts of any run there is a recorded action that saw the node as a follower |
| Takeover.WaitsAfterTakeover | src/conductor.rs:501-528 | After one, no call is made while the node stays leader, active and unhealthy in a way that may pass, and every action reports waiting |
| Takeover.WaitsIffMayRecover | src/conductor.rs:501-528 | In every run, with nothing recorded since an unhealthy start, an action of a leader still active and unhealthy waits if and only if its current verdict may pass by itself, and otherwise, with the connection down or the builder partially healthy, stops and transfers |
| Takeover.ControlMeaning | src/conductor.rs:304-335 | When pause, resume and stop answer Ok, and that only a resume answered Ok stores the activity it was told |
| Takeover.TickIsEvents | src/conductor.rs:390-412 | The conductor's tick is an activity refresh, a verdict and an action of these runs in a row |
| Takeover.FlagsMeaning | src/conductor.rs:304-335 | In every run the conductor is paused exactly since a pause answered Ok with no resume answered Ok after it, stopping exactly after a stop, and stopped exactly after a successful shutdown |
| Takeover.NoCallsWhileHalted | src/conductor.rs:304-335 | In every run no call is made from an Ok pause to the next resume, nor ever after a stop, failed or not |
| PauseStop.CallsOnlyWhileRunning | src/conductor.rs:458-466 | Under all interleavings a call is issued only unpaused and before any shutdown has begun |
| PauseStop.PauseIsRespected | src/conductor.rs:304-311 | After a pause has set the flag no action issues a call until a resume clears it |
| PauseStop.StopIsRespected | src/conductor.rs:324-335 | After consensus shutdown has begun no call is issued, even if it failed and is retried |
| PauseStop.ShutdownOnce | src/conductor.rs:324-335 | Consensus is shut down successfully at most once, and exactly once when stopped |
| PauseStop.NoDeadlock | src/conductor.rs:304-335 | Whenever a call is unfinished, some call can move |
| PauseStop.EveryCallReturns | src/conductor.rs:304-335 | Every run is finite and one that cannot continue has finished every call |
| PauseStop.CallsAloneAreMethods | src/conductor.rs:304-335 | Each interleaved call, left alone, ends with the flags and result of the conductor's own pause, resume, stop or halt check |
| SafeStart.StartSequencer | src/conductor.rs:563-612 | The method, statement by statement, makes the attempt characterised in the next row and marks the sequencer active exactly on success |
| SafeStart.AttemptMeaning | src/conductor.rs:563-612 | For every node and every answer: exactly which calls an attempt makes, in order, and which result or error it gives; a node ahead is started on its own head, any other on the committed one |
| SafeStart.StartsAreForStartHash | src/conductor.rs:574-593 | Every start call, with or without argument, is for that hash and goes to a startable node only |
| SafeStart.AlreadyStartedMeaning | src/sequencer.rs:29-52 | Which answers count as already started; the second of the three messages is a case of the third |
| SafeStart.EveryStartBuildsOnCommitted | src/conductor.rs:577-603 | In all three modes every start call is for the committed unsafe head or a block that has it as an ancestor |
| SafeStart.RepairIsBounded | src/conductor.rs:580-584 | A repair posts the committed payload once, first, and only for a gap of 1 to the repair depth |
| SafeStart.PlainStartIsSafe | src/sequencer.rs:88-107 | A parameterless start follows only an observed head equal to the expected hash and builds on it |
| SafeStart.OfferedIffStartable | src/sequencer.rs:120-139 | Exactly the nodes at the head, repaired, or verified ahead are offered a start, for their own head if ahead and the committed one otherwise; with the hash unless the mode is parameterless, and without it exactly when the mode leads there and that head was seen |
| SafeStart.SucceedsIff | src/conductor.rs:598-607 | The exact condition for success in each mode, already started counting as accepted |
| SafeStart.SuccessMeansStartedIff | src/conductor.rs:598-605 | Given success, some start call was taken or answered with already started if and only if the head check did not fail before a parameterless start, or the node's refusal of the hash argument itself spoke of an already started sequencer |
| SafeStart.SuccessWithoutAnyCall | src/sequencer.rs:88-107 | A node at the committed head for which the attempt succeeds without a single call |
| SingleActive.OnlyLeaderRuns | src/conductor.rs:390-412 | With a stable leader, once every follower has completed an answered, successful tick, only the leader's sequencer can run, for the rest of the run and under all interleavings of ticks and actions |
| SingleActive.FollowerAct | src/conductor.rs:475-480 | A follower's action never starts anything, keeps a sound cache sound, and if it succeeds leaves the sequencer running exactly if it ran and the status read said inactive |
| SingleActive.WholeTickIsTick | src/conductor.rs:390-412 | The steps of a tick back to back give the fields, result and calls of the conductor's `tick` |
| SingleActive.FollowerTickMeaning | src/conductor.rs:390-412 | A successful tick of a follower leaves its sequencer off if it was answered, and otherwise exactly if it was off before or the cache said active; with an inactive cache an unanswered tick always succeeds |
| ControlLoop.RunControlLoop | src/main.rs:1058-1107 | For every schedule of signals, timers and outcomes the loop takes the steps that are ready, they form a run of the state machine, and its variables are the last state of that run |
| ControlLoop.NoLostWakeUp | src/main.rs:1066-1106 | For every queued action at every later moment, an attempt began after it, or one is pending or unseen, or the loop returned because the conductor stopped |
| ControlLoop.PendingIffAsked | src/main.rs:1071-1105 | In every run an attempt is pending exactly if one was asked for, by the start, a signal seen or a failed tick, and none has succeeded since |
| ControlLoop.FailureIsRetried | src/main.rs:1086-1103 | After a failed action or tick an attempt is scheduled, with its timer set, until one begins, and it begins no sooner than the retry deadline |
| ControlLoop.SignalIsPrompt | src/main.rs:1073-1081 | The first attempt, and one signalled while nothing was pending, is due at once |
| ControlLoop.StopEndsLoop | src/main.rs:1071-1105 | Once the conductor has stopped the loop begins nothing and returns within three more steps of its own |
| ControlLoop.OnlyFailingTicksPostpone | src/main.rs:1071-1105 | In every run a due attempt stays due, and ready whenever the loop selects, until it begins, the conductor stops or a tick fails |
| ControlLoop.FailingTickHasActed | src/conductor.rs:390-412 | A failing tick has itself run an action, after any given signal unless that action was under way when the signal came |
| ControlLoop.TicksMayPostponeForever | src/main.rs:1096-1103 | For every n there is a run with n failing ticks in which an attempt is owed throughout and never begins |
| ControlLoop.ActionBeginsSoon | src/main.rs:1071-1105 | Counting ticks too, the loop takes at most four turns more than there are new signals before some action begins, its own or a tick's, while no stop has begun |
| ControlLoop.LoopNeverStuck | src/main.rs:1071-1105 | In every state but the final one the loop has a step of its own to take |
| Counter.TimeBoundedCounter.Increment | src/conductor.rs:820-830 | Adds one to the current bucket and never ends with more than 1000 buckets |
| Counter.TimeBoundedCounter.Tolerate | src/conductor.rs:760-775 | Nothing is tolerated without a limit and an interval; otherwise the counter decides |
| Counter.AgreesWithReference | src/conductor.rs:812-830 | With a non-decreasing clock the counter agrees with one that never evicts on every bucket still to be asked |
| Counter.ToleratedIffFewBefore | src/conductor.rs:760-775 | A response is tolerated exactly when fewer than the limit came before it in its aligned interval |
| Counter.ToleratedIffFewInInterval | src/conductor.rs:760-775 | The same with the interval spelt out as `k * length <= time < (k + 1) * length` |
| Counter.OccurrencesMeaning | src/conductor.rs:832-834 | A bucket counts exactly the responses within that aligned interval |
| Counter.AlignedIntervalExact | src/conductor.rs:760-775 | Each aligned interval tolerates exactly the lesser of the limit and its responses |
| Counter.SlidingIntervalBound | src/conductor.rs:760-775 | Any sliding interval tolerates at most twice the limit |
| Counter.BucketsHoldEpoch | src/conductor.rs:820-830 | For every clock the buckets hold exactly the responses since the last eviction, the evicting response included, each count up to the limit |
| Counter.ToleratedIffFewInEpoch | src/conductor.rs:760-775 | For every clock a response is tolerated exactly when fewer than the limit came before it in its aligned interval since the last eviction |
| Counter.VerdictDiffersIff | src/conductor.rs:812-830 | For every clock a verdict differs from that of a counter that never forgets if and only if the interval is exhausted overall but not since the last eviction |
| Counter.FewBucketsOneEpoch | src/conductor.rs:825-828 | Up to a thousand distinct intervals nothing is forgotten, whatever the clock does |
| Counter.SteppingBackToleratesAgain | src/conductor.rs:825-828 | A clock that runs for a thousand and one intervals and steps back to the first gets one response too many tolerated there |
| Hub.Hub.TakeId | src/flashblocks.rs:398-400 | Registration takes a fresh id before the lock |
| Hub.Hub.InsertClient | src/flashblocks.rs:401-407 | Registration then inserts the client with an empty queue under the id it took, and touches no other client |
| Hub.Hub.UnregisterClient | src/flashblocks.rs:409-415 | Removes exactly that client's sender |
| Hub.Hub.BroadcastMessage | src/flashblocks.rs:417-431 | Every registered client that can take the message gets it, exactly the others are dropped |
| Hub.FanOutIsGapFree | src/flashblocks.rs:211-222 | In every run, received plus queued messages of a client are one contiguous piece of the broadcasts from its registration, complete while registered, in a queue of at most 256 |
| Hub.JoinsFresh | src/flashblocks.rs:398-407 | A registration gets an id nobody had and an open, empty queue |
| Hub.LeavesIff | src/flashblocks.rs:409-431 | A client is dropped exactly by unregistering, or by a broadcast that finds it gone or with 256 messages queued |
| Hub.KeepingUpGetsAll | src/flashblocks.rs:398-431 | A client that neither leaves nor closes and has room at every broadcast stays registered and gets every message since it joined, in order |
| Hub.ClosedGetsNothing | src/flashblocks.rs:417-431 | A client whose receiver is gone has lost what it had not taken and gets nothing ever after |
| Hub.ClientsDoNotInterfere | src/flashblocks.rs:417-431 | Striking out all events of other clients from a run changes nothing for a client |
| RoundRobin.TransferRoundRobin | src/conductor.rs:634-670 | A lone voter does nothing, a non-voter is an error, otherwise the rotation is tried |
| RoundRobin.TryRotation | src/conductor.rs:652-669 | Attempts are a prefix of the rotation, refused up to the last; the fallback is tried exactly when all others refused |
| RoundRobin.AttemptsAreOthers | src/conductor.rs:636-664 | With distinct ids each other voter is asked at most once, never the node itself, and all of them before a fallback |
| RoundRobin.RotationIndex | src/conductor.rs:653-654 | The modular index enumerates the voters after the current one, wrapping around |
| RoundRobin.SortByIdSorts | src/conductor.rs:644 | Sorting gives strictly ascending ids, none lost and none added |
| RoundRobin.PrecedesMeaning | src/conductor.rs:644 | The order of ids is the lexicographic one |
| RoundRobin.FullCycle | src/conductor.rs:634-664 | If nobody refuses, any n successive transfers among n voters, each made by the last one asked in the transfer before, make every voter leader and return to the first |
| RoundRobin.DefaultTransferTarget | src/raft_consensus.rs:135-158 | Picks the first other voter with the greatest matched index, the last two 64-bit indices counting alike, and fails exactly when no other voter has matched anything |
| Quantity.FromStrRadixMeaning | src/types.rs:169-175 | The checked parser accepts exactly the digit strings, with an optional plus sign, whose value fits in 64 bits |
| Quantity.CanonicalIdempotent | src/rpc/server.rs:619-634 | Canonicalising is idempotent and keeps the number |
| Quantity.CanonicalEqualIffSameNumber | src/rpc/server.rs:619-634 | Two accepted strings of any length share a canonical form exactly when they denote one number |
| Quantity.DecodeMeaning | src/rpc/server.rs:613-617 | Decoding succeeds exactly on accepted strings that fit, and printing the value gives the canonical form |
| Quantity.CanonicalAcceptsIff | src/rpc/server.rs:619-634 | Exactly a prefix in either case followed by digits of the sixteen-letter alphabet without a leading zero is accepted |
| Quantity.FormatDecodes | src/rpc/server.rs:593 | Printed numbers are canonical and decode to themselves |
| Payload.ParseQuantityMeaning | src/types.rs:163-179 | Strings are read as exactly the 64-bit number their digits denote in base 16 or 10 |
| Payload.ParseInvertsFormat | src/types.rs:168-171 | Parsing inverts hexadecimal printing for every u64 and refuses anything wider |
| Payload.ParsersCompared | src/rpc/server.rs:613-634 | On every string: where proxy decoder and payload parser both accept they read one number; the decoder alone accepts exactly its strings behind `0X`, the parser alone exactly its strings without lower prefix, with a sign or with a leading zero |
| Payload.DecoderAlone | src/rpc/server.rs:620-623 | `0X5` is read by the decoder and refused by the parser |
| Payload.ParserAlone | src/types.rs:168-175 | `0x01`, `0x+5` and `10` are read by the parser and refused by the decoder |
| Payload.HashFromStr | src/types.rs:29-44 | Fills the byte buffer with the pairs of digits, or refuses anything but a prefix and 64 digits |
| Payload.HashPrintParse | src/types.rs:52-56 | Parsing a printed hash gives it back |
| Payload.HashAcceptsIff | src/types.rs:29-44 | Exactly the lower-case prefix and sixty-four digits of either case are accepted |
| Payload.HashParsePrint | src/types.rs:32-55 | Printing a parsed hash gives the text in lower case |
| Payload.EncodeRoundTrip | src/types.rs:136-161 | Every hash and every 64-bit number survive the envelope, nothing wider is valid |
| Payload.AccessorsMeaning | src/types.rs:136-161 | Both accessors look under either spelling, the camel-case one hiding the other, and say what is missing |
| Payload.NormaliseBlockKeepsBlock | src/rpc/server.rs:565-577 | The forwarded block is a fixed point and the same block, at most i64::MAX |
| Payload.NormaliseAcceptsIff | src/rpc/server.rs:565-577 | Exactly the five tags and the accepted quantities up to i64::MAX are forwarded |
| Payload.EthGetBlockForwardsSameBlock | src/rpc/server.rs:558-582 | Forwarded exactly for a normalisable block string and a flag, which is kept |
| Payload.OutputAtBlockForwardsSameBlock | src/rpc/server.rs:584-594 | Forwarded exactly for one accepted quantity within 64 bits, and then as the canonical form of the same number |

## Left out

- openraft: election, quorum, replication and its linearizable read; only its calling contract appears.
- HTTP Raft transport, RPC clients and servers, websockets, pings and timeouts: input and output plumbing.
- `run_leader_watch` (src/main.rs): it depends on openraft's metrics channel, which is not part of this model.
- `initialize_startup_state` and the test-only setters of src/conductor.rs: they run before the first action.
- Health checks (src/health.rs, `check_health_at`): each verdict is an arbitrary value of `Health`.
- Metrics, tracing, profiling, command line and configuration validation: flat, no deep property.
- Membership changes and their version check: the check and the change are separate steps, so atomic enforcement is not claimed.
- Parent and child continuity of committed payloads: `apply` compares block numbers only.
- JSON-RPC dispatch, batches and proxying beyond the two parameter normalisations.
- Real time: the retry deadline passes at an arbitrary moment; which ready branch the loop takes next is free.
- Cancellation of a future in the middle of a call: every call runs to its end or the process crashes.
- u64 wrap-around of the snapshot number, the client id and the action sequence number.
- The start step inside the `Conductor` class is only accepted or refused; its calls are the subject of SafeStart.
