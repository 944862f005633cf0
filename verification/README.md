# NilCore: verified models of the command layer

NilCore is a coding agent whose command layer owns several stateful protocols: verified work is
pinned under git refs, runs are resumed after a crash, shards are retried, wakes are fired, money is
capped. This project models those protocols in Dafny and proves what they keep over whole runs,
including crashes, failing git or store calls, and interleavings.

`dafny verify dfyconfig.toml` checks everything.

| module | what it models |
|---|---|
| Commits, KeptBranches | commit graph; pinning, merging, applying, sweeping and capping verified branches |
| Repository | the git repository those steps run against, method by method |
| Delivery | what an apply, a build's delivery and a drive's end do to the base and the session |
| DriveTips | which tips share a kept name, and runs of drives with distinct tips |
| DurableResume | the resume pin against the snapshot row, the boot's resume pass, the ids that tie them together |
| ServeDrive | the end of a live serve drive, rows and refs together |
| SwarmResume | the seed set of a resumed swarm run and what its verdict covers |
| EventQueue, Transcript | the bounded event queue with its wake slot, and the fold into transcript lines |
| WakeFire | durable self-timers under concurrent pollers |
| BlastBudget | the daily dollar ceiling rebuilt from the log |
| Requeue | the bounded retry ledger and its store row |
| Decompose, Text | goal splitting and lossless batching, over splitting, joining and trimming |
| PlanForms | what a list and a sentence plan into |
| MergeFold | the merge, verify and roll back fold of child branches |
| ShardRun | one shard attempt and the scoreboard tallies |
| Flows | dependency edges derived from a flow document |
| HardEgress | the canonical gateway key, the cache and the once-only teardowns |
| SelfAcceptance | the acceptance fold over self-authored checks |
| FaultPlan | fault plans, case-insensitive search, reliability |
| Utf8Clip | clipping UTF-8 to a byte budget (section 4 of RFC 3629) |
| Wrappers | the option type |

How the models are built. A durable protocol is a function from a state to the sequence of durable
states it writes; a crash cuts that sequence anywhere, and a class whose methods follow the code step
by step is proved to write exactly that sequence. Every outside call that can fail (git, the store,
the sandbox, the gate) is a parameter. A concurrent protocol is a step relation over which every
interleaving is a run. Loops of the code are loops here, proved against a function with lemmas of its
own.

## What the proofs found

These are the places where a comment or a natural reading promises more than the code does. Each has
a concrete counterexample or an exact condition in the model.

- Kept names: `task/integrate-x` and `integrate/x` share a kept branch; the second pin forgets the
  first (`CollidingPinLosesWork`). It is harmless exactly when the work is held elsewhere
  (`OverwriteKeepsExactly`). No other pair of drive tips collides (`DriveTipsHaveTheirOwnName`), so
  between distinct tips only the cap loses work (`OnlyTheCapLosesWork`).
- Kept merges: a merge reported as failed has moved the base exactly when it went in and its new tip
  could not be read (`FailedMergeMovesBaseExactly`, `UnreadTipMovesTheBase`). A merge already in
  progress in the base repository is aborted (`ForeignMergeIsAborted`). A conflict whose MERGE_HEAD
  probe fails is reported as a refusal and leaves the merge open (`MergeOutcome`).
- Resume pins: ids that differ only in ':' against '-' share a pin (`CollidingIdsLoseAPin`). A save
  without a tip blanks the row's tip (`SaveIsExact`). A crash between the two writes of a save keeps
  the row's tip exactly when the new tip descends from it (`SaveLosesExactly`, `RespectIsExact`). A
  resumed run that finishes drops its pin and is never pinned under `nilcore/kept/`, so a verified tip
  that only the pin held is lost (`FinishedResumeHoldsTipExactly`, `FinishedResumeLosesItsTip`).
- Swarm: exit code 0 does not read the unresolved count (`ExitZeroCoversExactly`).
- Wakes: Arm saves the wake before it clears the claim, so two pollers on one registry, like two
  registries, can fire one arming twice (`TwoPollersFireTwice`). Single fire holds exactly with one
  poller at most (`AtMostOnceIffOnePoller`).
- Serve drives: the row is closed and the resume pin dropped before the tip is pinned under
  `nilcore/kept/`. A crash between the two leaves the verified tip on swept branches only, behind a row
  that says done (`ServeEndHoldsExactly`, `OneCrashPointLosesTheTip`, `ServeCrashLosesTheTip`).
- Spend: a charge whose line is stamped after midnight counts, once a restart re-reads the log, on the
  day of the line (`MidnightChargeShows`, `MidnightChargesShowExactly`). A day whose logged total
  exceeds the ceiling is refused whole at boot and starts over at zero (`OverfullDayStartsOver`).
- Requeue: two units under one key can give an empty, unexhausted verdict while red
  (`DuplicateKeysHideRed`); the verdict can be trusted exactly when keys are distinct
  (`VerdictIsHonestExactly`). A snapshot save on the same row erases the ledger
  (`SnapshotSaveForgetsTheLedger`). As wired the ledger has no row at all: cmd/nilcore/build.go:528-537
  builds the runner without a store, so every restart forgets it and the bound of `RequeueTerminates`
  holds within one process only. Two fixes whose artifact and owner join to one id run as one, or
  continue from each other's branch (`RequeueIdsCollideExactly`, `OneIdTwoFixes`).
- Merge fold: children behind a cut fold are in neither count (`ChildrenAreConservedExactly`,
  `CutFoldLosesAChild`), and a failed rollback leaves a rejected branch on the tip
  (`RollbackDecidesExactly`, `TipIsKeptAndGreen`). A fold that ends mid-merge reports the verdict of the
  conflicted tree, not of its tip (`VerdictIsTheFinalTips`, `FoldEndsOpenExactly`,
  `ConflictedTreeIsReported`).
- Scoreboard: a verdict of a later pass resets the tallies, so passes plus failures equal the
  attempts only within one pass (`TalliesCountEveryRunExactly`).
- Flows: ids with "->" can lose an edge (`ArrowsLoseAnEdge`); repeated ids can close a cycle
  (`RepeatedIdsCloseACycle`), exactly when another id stands between two equal ones
  (`OrderMakesAcyclicExactly`).
- Event queue: more than 256 frames without a token between drains lose frames (`FloodLosesAFrame`).
- Gateways: "no hosts" and "one empty host" share a key (`SameKeyExactly`).
- Acceptance: a verifier id is trimmed at lookup but not at binding, so " x" runs the command bound
  as "x" (`UntidyIdBorrowsAVerdict`).

## Model

| member | source | states |
|---|---|---|
| KeptBranches.KeptNamesCollideExactly | cmd/nilcore/chat.go:987-990 | kept names are injective on task ids and on integration suffixes; task/x and integrate/y share one exactly when x is "integrate-" followed by y |
| DriveTips.DriveTipsHaveTheirOwnName | cmd/nilcore/chat.go:987-990 | two drive tips, integration branches or task branches not named integrate-, share a kept name only when they are the same branch |
| KeptBranches.PinCovers | cmd/nilcore/chat.go:974-999 | from the first ref update of a successful pin on, the verified commit is reachable from a kept branch or the base |
| KeptBranches.MergedContains | cmd/nilcore/chat.go:1248-1268 | a merge that succeeds contains the old tip and the merged commit |
| KeptBranches.MergeOutcome | cmd/nilcore/chat.go:1248-1268 | conflict, failed abort and refusal leave refs, head and commits as they were, and a refusal leaves a merge open only when the MERGE_HEAD probe failed; only a merge that went in moves the base, and then the base contains the branch, also when the new tip could not be read |
| KeptBranches.FailedMergeMovesBaseExactly | cmd/nilcore/chat.go:1248-1268 | a merge not reported as landed leaves the base where it was exactly when its tip was read or the branch was already in the base |
| KeptBranches.UnreadTipMovesTheBase | cmd/nilcore/chat.go:1263-1266 | a concrete merge reported as failed has moved the base |
| KeptBranches.ForeignMergeIsAborted | cmd/nilcore/chat.go:1252-1259 | a merge already open in the base repository is aborted exactly when the probe and the abort work, and reported as a conflict |
| KeptBranches.CoveredWorkStaysCovered | cmd/nilcore/chat.go:974-1267 | over every run of pins, drives, promotes, applies, sweeps, caps and commits, cut short anywhere and with any git call failing, a covered commit stays covered as long as no pin overwrites, and no cap removes, the last ref that leads to it |
| KeptBranches.PinnedWorkSurvives | cmd/nilcore/chat.go:974-1021 | the same for the pinned commit, from a successful pin on |
| DriveTips.OnlyTheCapLosesWork | cmd/nilcore/chat.go:974-1267 | in a run whose pins take pairwise distinct drive tips, none kept before, every covered commit that the caps spare stays covered: no pin overwrites work |
| KeptBranches.DriveKeepsExactly | cmd/nilcore/chat.go:1389-1423 | a supervised drive's end keeps covered work at every ref update exactly when its pin does: the sweep after it costs nothing |
| KeptBranches.SweepKeeps | cmd/nilcore/build.go:478-487 | no sweep of the throwaway prefixes reaches a kept branch |
| KeptBranches.PinKeepsExactly | cmd/nilcore/chat.go:988-999 | a pin keeps a covered commit exactly when something beside the kept name it writes leads to it, or the new tip contains it |
| KeptBranches.OverwriteKeepsExactly | cmd/nilcore/chat.go:990-996 | a pin onto an occupied kept name keeps the old work exactly when the new tip contains it, it has landed, or another kept branch has it |
| DriveTips.CollidingPinLosesWork | cmd/nilcore/chat.go:990 | the name collision loses a pinned commit |
| KeptBranches.ApplyDeletesOnlyLanded | cmd/nilcore/chat.go:1162-1227 | at every ref update of an apply, a kept branch that disappears is an ancestor of the base |
| KeptBranches.DeliverDeletesOnlyLanded | cmd/nilcore/build.go:250-271 | the same for a build's delivery |
| KeptBranches.SurplusIsTheOldest | internal/maint/cap.go:50-73 | the cap reaches exactly the branches past the newest twenty of the listing, never the active one |
| KeptBranches.PruneKeepsExactly | cmd/nilcore/chat.go:1006-1036 | pruning costs exactly the commits that only the removed branches hold, and keeps the others covered at every removal |
| Repository.Repo.PinKeptBranch | cmd/nilcore/chat.go:974-999 | writes exactly the pin's durable states, pin before delete, and returns the name that holds the work |
| Repository.Repo.MergeKeptBranch | cmd/nilcore/chat.go:1248-1268 | writes exactly the merge's durable states and reports landed, unread, conflict or refusal |
| Repository.Repo.ApplyKeptBranch | cmd/nilcore/chat.go:1162-1227 | lands the carried branch behind the gate, then reclaims it, then clears the session |
| Repository.Repo.DeliverBuild | cmd/nilcore/build.go:250-271 | pins first, merges only when promoted, reclaims only what landed |
| Repository.Repo.FinishDrive | cmd/nilcore/chat.go:1389-1423 | pins a done drive's tip before the deferred sweep; the session carries the kept name only when there is one |
| Repository.Repo.CapKeptBranches | internal/maint/cap.go:50-73 | the loop removes the surplus in listing order |
| Delivery.MergedIsExactly | cmd/nilcore/chat.go:1248-1268 | a merge brings in the history of both sides and nothing else, and moves no branch but the checked-out one |
| Delivery.MergeLandsExactly | cmd/nilcore/chat.go:1248-1268 | a merge goes in exactly when none is open, the branch exists, git starts and two diverged sides do not conflict; it is reported as landed exactly when the tip is read too |
| Delivery.OpenMergeExactly | cmd/nilcore/chat.go:1248-1262 | when a merge comes upon an open one, when that is reported as a conflict, and when it stays open, also for a process that stops before the abort |
| Delivery.LandsExactly | cmd/nilcore/chat.go:1202-1226 | after a landing the base holds exactly its own history and the branch's when the merge goes in, and its own otherwise; the ref goes exactly when the tip was read, the delete works and it is not checked out |
| Delivery.ApplyIsGated | cmd/nilcore/chat.go:1162-1213 | an apply that is denied, not idle, detached or without an existing carried branch writes nothing at all |
| Delivery.ApplyLandsExactly | cmd/nilcore/chat.go:1202-1227 | an approved apply: exactly when the base gains the carried history, the session is cleared and the carried branch goes; otherwise all three stay |
| Delivery.OnlyAPromotionMovesTheBase | cmd/nilcore/build.go:250-271 | a build that is not both done and promoted leaves the base alone at every ref update; without a done branch nothing is written |
| Delivery.PinNamesTheWork | cmd/nilcore/chat.go:974-999 | the name a pin returns leads to the work, which name it is, and what the pin leaves alone |
| Delivery.PromotionLandsExactly | cmd/nilcore/build.go:250-271 | a done build is pinned before anything else; the base gains exactly its history when it is promoted and the merge goes in, and keeps its own otherwise |
| Delivery.DriveCarriesExactly | cmd/nilcore/chat.go:1389-1423 | after a drive's end the session carries the name the done tip is found under, and what it carried before when the drive is not done |
| Delivery.SweptExactly | cmd/nilcore/build.go:478-487 | a sweep removes what it was given of the four run-scoped prefixes that is not checked out, and nothing else |
| Delivery.DriveSweeps | cmd/nilcore/chat.go:1389-1423 | a drive's end sweeps, whether the drive is done or not |
| Delivery.CapRemovesExactly | cmd/nilcore/chat.go:1006-1036 | the cap removes exactly the branches listed behind the first twenty, save the active one, those whose delete fails and a checked-out one |
| Delivery.OtherStepsAreExact | cmd/nilcore/build.go:478-487 | in the runs, a commit goes onto any branch outside nilcore/kept/ and a sweep is one step |
| DurableResume.MakeResumeRef | cmd/nilcore/resume.go:52-63 | the byte loop equals the map of ':' to '-' under resume/ |
| DurableResume.ResumeRefsCollideExactly | cmd/nilcore/resume.go:47-63 | two runs share a pin exactly when their ids differ only in ':' against '-' |
| DurableResume.ThreadsHaveTheirOwnPin | cmd/nilcore/resume.go:45-63 | threads without ':' never share a pin |
| DurableResume.OwnerThreadFromTaskID | cmd/nilcore/main.go:1454-1465 | the thread before the last '-' when non-empty digits follow it, "" exactly when no such split exists |
| DurableResume.OwnerThreadIsUnique | cmd/nilcore/main.go:1454-1465 | an id splits into a thread and digits in at most one way |
| DurableResume.ResumedGateThread | cmd/nilcore/resume.go:171-186 | the synthetic id of a resumed run parses back to its thread for every non-empty thread |
| DurableResume.ResumePinsAreNotThrowaway | cmd/nilcore/build.go:484-486 | no swept prefix matches a resume pin |
| DurableResume.ResumableTipStaysPinned | cmd/nilcore/build.go:548-569 | over every run of saves, ends, sweeps and re-runs, each cut anywhere, the tip an in-flight row would resume from is reachable from that run's pin, when each operation respects the pins; a save that completes both writes may move to any tip |
| DurableResume.RespectIsExact | cmd/nilcore/build.go:548-569 | that condition is exact, operation by operation and crash point by crash point: an operation keeps the invariant if and only if it meets it |
| DurableResume.NamedRunsStayPinned | cmd/nilcore/resume.go:45-63 | runs of threads without ':' keep the invariant, fresh re-runs included, if no row with a tip lands without its pin and a save cut between pin and row descends from the row's tip |
| DurableResume.SaveIsExact | cmd/nilcore/build.go:551-568 | after a save the pin is the row's tip; before the row is written it already is the newer tip; a save without a tip forgets the row's tip |
| DurableResume.SaveLosesExactly | cmd/nilcore/build.go:551-568 | when the conditions on a save fail, exactly which tips are no longer served by the pin |
| DurableResume.CloseTellsTheOutcome | cmd/nilcore/resume.go:93-111 | a close leaves done or failed in the row with nothing to resume from and drops the pin of a done run; a cancelled, unnamed or unwritable one changes nothing |
| DurableResume.SweepRemovesExactly | cmd/nilcore/build.go:478-487 | a sweep removes what it was given of the four run-scoped prefixes, and nothing else |
| DurableResume.OtherOpsAreExact | cmd/nilcore/resume.go:131-162 | a resumed run that could not be driven ends failed, a sweep is one step, another ref moves alone and never under resume/ |
| DurableResume.CollidingIdsLoseAPin | cmd/nilcore/resume.go:52-63 | two colliding runs take each other's pin |
| DurableResume.PinDroppedOnlyOnceDone | cmd/nilcore/resume.go:93-111 | over every operation and crash point a pin disappears only once its row says done |
| DurableResume.SavedSnapshotIsResumed | cmd/nilcore/resume.go:80-86 | a saved snapshot comes back as base and seed together, exactly when its tip re-verifies, on a branch that contains the base, whatever respectful operations follow on other rows |
| DurableResume.ResumedOncePerBoot | cmd/nilcore/resume.go:121-163 | after the boot's pass a run is offered again exactly when it could not be loaded or closed, or was stopped on purpose |
| DurableResume.InFlightRowsAreListed | cmd/nilcore/resume.go:125-129 | every disk has a listing of its in-flight rows, each once |
| DurableResume.FaultedRunKeepsItsPin | cmd/nilcore/resume.go:151-160 | a resumed run sweeps first; one that could not be driven ends failed, with nothing to resume from and its pin untouched |
| DurableResume.OldPinSurvivesUntilFirstSave | cmd/nilcore/resume.go:137-162 | a re-run keeps the old pin until its first save with a tip or until it is done |
| DurableResume.FinishedResumeHoldsTipExactly | cmd/nilcore/resume.go:189-213 | after a resumed run, its saves, the sweep and the done close, a commit is held exactly when a lasting ref beside its own pin led to it at boot |
| DurableResume.FinishedResumeLosesItsTip | cmd/nilcore/resume.go:189-213 | a concrete run whose re-verified tip is held at boot and by nothing once the resumed run is done |
| DurableResume.Server.SaveState | cmd/nilcore/build.go:551-568 | pin, then row, best effort on the pin |
| DurableResume.Server.FinalizeSupervise | cmd/nilcore/resume.go:93-111 | row first, then the pin when done; nothing when cancelled or the row write fails |
| DurableResume.Server.ResumeOne | cmd/nilcore/resume.go:131-162 | starts from the planned base and seed, then writes exactly the run's saves, sweep and close |
| DurableResume.Server.ResumeSupervise | cmd/nilcore/resume.go:121-163 | the whole pass, run by run |
| ServeDrive.ServeEndHoldsExactly | cmd/nilcore/main.go:1838-1851 | at every crash point of a live serve drive's end, row, resume pin, kept pin and sweep, with any call failing, the converged tip is held by a lasting ref exactly when the resume pin is not dropped yet, or the kept pin is written already, or another lasting ref leads to it |
| ServeDrive.OneCrashPointLosesTheTip | cmd/nilcore/main.go:1841-1850 | with every call working, a tip that only its resume pin holds is lost at exactly one crash point, between the two; the row says done there |
| ServeDrive.ServeCrashLosesTheTip | cmd/nilcore/main.go:1841-1850 | a concrete in-flight drive that loses its tip there |
| SwarmResume.LedgerHasBudget | internal/swarm/queue.go:491-509 | some recorded claim is below a positive ceiling, or none is recorded |
| SwarmResume.BudgetIsSpentExactly | internal/swarm/queue.go:491-509 | a shard is out of budget exactly when requeue is off or it has recorded claims and each has reached the ceiling |
| SwarmResume.QueueFailed | internal/swarm/queue.go:462-481 | the red rows with budget, and the number of red rows |
| SwarmResume.ResumeIncomplete | cmd/nilcore/swarm.go:1391-1417 | every unfinished row, reset |
| SwarmResume.DedupeShards | cmd/nilcore/swarm.go:1422-1432 | the in-place compaction equals first-occurrence dedupe |
| SwarmResume.DedupeIsExact | cmd/nilcore/swarm.go:1419-1432 | dedupe keeps each id once and drops none |
| SwarmResume.DedupeKeepsFirst | cmd/nilcore/swarm.go:1419-1432 | what it keeps is the first occurrence |
| SwarmResume.ResumeSeed | cmd/nilcore/swarm.go:618-663 | the seed set and the unresolved count of a resume |
| SwarmResume.ResumeCoversEveryShard | cmd/nilcore/swarm.go:632-663 | every durable shard is exactly one of on the tip, seeded once, counted unresolved, or exhausted |
| SwarmResume.SeededAfresh | cmd/nilcore/swarm.go:1434-1445 | a seeded shard starts over unless its verifier failed it |
| SwarmResume.CleanMeansEveryShardPassed | cmd/nilcore/swarm.go:769-782 | with the Controller's promise, a clean verdict means every planned shard passed, unless a row is exhausted |
| SwarmResume.ExitZeroCoversExactly | cmd/nilcore/swarm.go:225 | exit 0 covers every planned shard exactly when nothing is unresolved or exhausted |
| SwarmResume.RetriesAreMonotone | cmd/nilcore/swarm.go:618-631 | raising --retries never shrinks the seed and never raises the count |
| EventQueue.TuiEmitter.Emit | cmd/nilcore/tui.go:179-190 | appends, sheds at most one event above 256, leaves a wake pending |
| EventQueue.TuiEmitter.Coalesce | cmd/nilcore/tui.go:194-202 | drops the oldest token, else the head |
| EventQueue.TuiEmitter.Drain | cmd/nilcore/tui.go:205-214 | hands over the whole queue |
| EventQueue.EnqueueShedsExactly | cmd/nilcore/tui.go:179-202 | past its capacity the queue gives up one event, the oldest token or, without one, its head; below it nothing |
| EventQueue.EmitIsAppendThenSignal | cmd/nilcore/tui.go:179-190 | the two steps of an emitter in the interleaving model are its one call |
| EventQueue.StepsAreAccounted | cmd/nilcore/tui.go:179-216 | over every run each signal is paid for by an append, each receive by a signal, and the listener receives, drains and re-arms in turn |
| EventQueue.NoLostWakeUp | cmd/nilcore/tui.go:179-214 | after any interleaving, also while a batch is folded, a non-empty buffer has a wake pending, an emitter about to signal, or a listener about to drain; a listener blocked with no wake and no such emitter faces an empty buffer |
| EventQueue.DeliveredInOrder | cmd/nilcore/tui.go:194-214 | the queue rests at 256 or below, what is drained and buffered is a subsequence of what was emitted, and every frame is there exactly when no overflow met a buffer without tokens |
| EventQueue.FloodLosesAFrame | cmd/nilcore/tui.go:194-202 | a run of 257 frames without a token or a drain loses one |
| EventQueue.EveryEventCanBeDrained | cmd/nilcore/tui.go:381-386 | from every reachable state the steps already owed bring the whole buffer to the listener |
| Transcript.TuiModel.CommitStream | cmd/nilcore/tui.go:841-846 | commits the stream without its trailing newlines |
| Transcript.TuiModel.OnEvent | cmd/nilcore/tui.go:790-839 | one event folded into lines and stream |
| Transcript.TuiModel.OnBatch | cmd/nilcore/tui.go:411-416 | a batch folded in order |
| Transcript.TranscriptIsFaithful | cmd/nilcore/tui.go:788-846 | every frame is shown once and in order, and a turn's text is exactly its tokens up to line breaks: turns never merge |
| Transcript.TranscriptKeepsOrder | cmd/nilcore/tui.go:788-846 | read from top to bottom the transcript is the events in order: each letter under its turn, each frame between the letters it arrived between, up to line breaks |
| Transcript.TurnIsOneLine | cmd/nilcore/tui.go:790-846 | the tokens of a turn become one line, without the line breaks at its end, as soon as a frame, a question or a token of another turn follows, and not before |
| Transcript.FrameAlone | cmd/nilcore/tui.go:790-839 | without an open turn a frame is one line of its own and an ask none |
| Transcript.BatchesFoldAsOne | cmd/nilcore/tui.go:411-416 | how the drained events are cut into batches does not show |
| Transcript.QueueThenTranscript | cmd/nilcore/tui.go:163-216 | end to end, without a lost frame the drained transcript has every emitted frame in emission order |
| WakeFire.Registry.Arm | internal/wake/wake.go:88-112 | saves, then clears the claim; nothing on a store error |
| WakeFire.Registry.Claim | internal/wake/wake.go:125-151 | the first claim wins and disarms; a failed disarm releases the claim |
| WakeFire.Registry.Feed | cmd/nilcore/autonomy.go:227-249 | one tick sends the wakes it wins in order, up to a cancellation that drops one; exactly these threads are claimed and disarmed, so a failing disarm leaves its thread unclaimed |
| WakeFire.EveryDueWakeIsWon | cmd/nilcore/autonomy.go:227-249 | what a tick wins, and so sends up to a cancellation, is exactly the first due wake of every thread that is neither claimed nor failing, in snapshot order |
| WakeFire.ArmIsTwoSteps | internal/wake/wake.go:100-112 | the interleaving model's two steps of an Arm, back to back, are the method's |
| WakeFire.ClaimIsTwoSteps | internal/wake/wake.go:125-151 | the same for a claim: won if and only if the mark was free and the disarm works, and only then the mark stays; a failing disarm may have landed |
| WakeFire.WonWakeIsSettled | cmd/nilcore/autonomy.go:238-248 | a won wake is sent, or given up by a cancelled context; either way its poller looks again |
| WakeFire.CrashForgetsTheRegistry | internal/wake/wake.go:57-86 | marks, half-done arms and findings die with the process, the durable wake stays |
| WakeFire.PollersPayTheirWay | cmd/nilcore/autonomy.go:227-249 | over every run each delivery or cancellation is backed by a disarm of its own poller, each disarm by a claim, each claim by a poll |
| WakeFire.AtMostOnceIffOnePoller | cmd/nilcore/autonomy.go:202-209 | deliveries never exceed armings over all runs exactly when at most one poller fires |
| WakeFire.TwoPollersFireTwice | internal/wake/wake.go:100-108 | two pollers fire one arming twice, on one registry or two |
| WakeFire.DeliveriesBoundedByArmings | cmd/nilcore/autonomy.go:215-251 | any number of pollers on one registry, with stale snapshots, store errors, crashes and cancellations: at most one delivery per arming when no claim falls inside a half-done Arm, at most two always |
| BlastBudget.Budget.ChargeAutoApprovalDollars | internal/blastbudget/blastbudget.go:264-286 | accepts exactly what fits and records nothing otherwise |
| BlastBudget.RebuildBlastDay | cmd/nilcore/blast.go:90-139 | pre-charges today's logged total, or pins the day on a scan fault |
| BlastBudget.LineCountsExactly | cmd/nilcore/blast.go:111-155 | a line adds to its own day alone: the actual spend when given, else the charge of older lines, else nothing |
| BlastBudget.MintBlastBudget | cmd/nilcore/blast.go:53-63 | booting leaves the log as it was |
| BlastBudget.AutoApproveDollars | internal/graapprove/graded.go:272-298 | the accepted amount is charged to the day of the decision and logged, in the same amount, on the day its line is written |
| BlastBudget.RestartsAreInvisibleExactly | cmd/nilcore/blast.go:54-139 | over runs whose lines are stamped on the day of their charge, restarts, clean or torn, never change a decision, exactly when there is no ceiling or the day's logged total fits under it |
| BlastBudget.MidnightChargesShowExactly | internal/graapprove/graded.go:272-298 | over all runs, with a midnight between a charge and its line too, restarts are invisible exactly without a ceiling |
| BlastBudget.MidnightChargeShows | cmd/nilcore/blast.go:96-118 | a concrete run: the restart counts the charge on the day of its line and refuses what was free |
| BlastBudget.FencedRunsAreRestartSafe | cmd/nilcore/blast.go:57-63 | a run that starts on an empty log, keeps one ceiling and logs each charge on its day never leaves that condition |
| BlastBudget.OverfullDayStartsOver | cmd/nilcore/blast.go:136-138 | a larger logged sum is refused whole and the day starts at zero |
| BlastBudget.FaultClosesTheDay | cmd/nilcore/blast.go:120-135 | after a scan fault the day is exactly at its ceiling and only the rounding slack is ever accepted |
| Requeue.KeyIsInjective | internal/requeue/ledger.go:28-38 | without '/' in artifact ids a key names one claim |
| Requeue.ResolveSpendsExactly | internal/requeue/plan.go:154-179 | each still-red unit spends one attempt, nothing else moves |
| Requeue.RemainingExactly | cmd/nilcore/requeue_wiring.go:454-469 | the reported keys are exactly the claims still red with budget left |
| Requeue.VerdictIsHonest | cmd/nilcore/requeue_wiring.go:184-261 | remaining work is never reported exhausted; with one unit per key an empty, unexhausted verdict means all clear |
| Requeue.VerdictIsHonestExactly | cmd/nilcore/requeue_wiring.go:184-261 | an empty, unexhausted verdict means all clear in every round over a worklist, whatever has been spent, exactly when no two of its units share a key |
| Requeue.RoundStopsExactly | cmd/nilcore/requeue_wiring.go:184-236 | a round does its work exactly when both scans are read and some unit has budget left; otherwise nothing is spent, nothing remains, and it is exhausted unless the worklist was empty |
| Requeue.ExhaustedVerdictExactly | cmd/nilcore/requeue_wiring.go:236-261 | with one unit per key, a round that did its work is exhausted exactly when some claim is still red and each of those has spent its last attempt |
| Requeue.DuplicateKeysHideRed | cmd/nilcore/requeue_wiring.go:254-260 | two units under one key can hide a red claim |
| Requeue.RemainingWorkCostsAttempts | cmd/nilcore/requeue_wiring.go:184-261 | a consultation that offers remaining work strictly lowers the attempts left, none raises them |
| Requeue.OffersArePaidFor | cmd/nilcore/requeue_wiring.go:184-366 | over every run the offers are paid for by the attempts left and those that restarts forget |
| Requeue.RequeueTerminates | cmd/nilcore/requeue_wiring.go:184-366 | at most units times maxAttempts offers across restarts, when ledger writes land and nothing else rewrites the row |
| Requeue.SnapshotSaveForgetsTheLedger | internal/agent/durability.go:368-374 | a snapshot save followed by a restart gives every claim its full budget again |
| Requeue.EmbedRoundTrip | cmd/nilcore/requeue_wiring.go:387-425 | the ledger comes back as written and its sibling keys are untouched |
| Requeue.RestartRemembersExactly | cmd/nilcore/requeue_wiring.go:317-366 | a restart remembers the counts of a consultation exactly when it did its work and the row's write landed, else what the row held before |
| Requeue.Runner.LoadLedger | cmd/nilcore/requeue_wiring.go:317-337 | memory first, then the row |
| Requeue.Runner.ResolveUnits | internal/requeue/plan.go:154-179 | the loop equals the resolution rule |
| Requeue.Runner.RemainingKeys | cmd/nilcore/requeue_wiring.go:454-469 | the loop equals the filter |
| Requeue.Runner.PlanFixes | internal/requeue/plan.go:83-118 | one fix per artifact and owner with a claim that has budget left, each once |
| Requeue.FixesExactly | internal/requeue/plan.go:83-118 | a fix is planned exactly for an artifact and owner with a claim that has budget left |
| Requeue.Runner.DispatchSubtasks | cmd/nilcore/requeue_wiring.go:268-301 | runs one fix per id and remembers the ids |
| Requeue.Runner.Consultation | cmd/nilcore/requeue_wiring.go:184-300 | one round: ledger, row and verdict; an id continues an earlier attempt exactly when it was dispatched before |
| Requeue.RequeueIdsCollideExactly | internal/requeue/plan.go:120-127 | two fixes share an id exactly when the owner of one is the rest of the other's artifact after a dash, with its owner |
| Requeue.DashFreeArtifactsAreApart | internal/requeue/plan.go:120-127 | artifact ids without '-' give every fix its own id |
| Requeue.EveryFixRunsExactly | cmd/nilcore/requeue_wiring.go:272-293 | every fix of a round runs if and only if no two share an id |
| Requeue.OwnBranchesExactly | cmd/nilcore/requeue_wiring.go:214-221 | over every history a fix that continues an attempt continues its own, if and only if no two fixes share an id |
| Requeue.OneIdTwoFixes | internal/requeue/plan.go:122-127 | a concrete pair of fixes of which one never runs, or continues from the other's branch |
| Decompose.DecomposePlan | cmd/nilcore/decompose.go:51-86 | the loops compute the plan |
| Decompose.PlanIsUsable | cmd/nilcore/decompose.go:51-86 | a goal has sub-goals exactly when it is not blank, all non-empty and trimmed |
| Decompose.PlanIsOneLine | cmd/nilcore/decompose.go:56-72 | no sub-goal has a line break |
| PlanForms.PlanOfLines | cmd/nilcore/decompose.go:56-72 | a goal of several lines has one sub-goal for each line that holds something after its marker, in order; a single one is planned on its own |
| PlanForms.ListRoundTrips | cmd/nilcore/decompose.go:42-72 | a list of two or more lines, each with its marker or without one, plans into exactly what its lines hold |
| PlanForms.PlainLinesRoundTrip | cmd/nilcore/decompose.go:56-67 | two or more usable lines without a marker come back as they are |
| PlanForms.StripMarkerExactly | cmd/nilcore/decompose.go:40-42 | a line is changed exactly when it starts with a list marker |
| PlanForms.TrimSpaceExactly | cmd/nilcore/decompose.go:56-63 | trimming takes white space off both ends and nothing else |
| Text.SpacesAreWhiteSpace | cmd/nilcore/decompose.go:56-63 | the white space meant there: the code points with the White_Space property |
| PlanForms.SentenceRoundTrips | cmd/nilcore/decompose.go:73-112 | a sentence plans into its parts, whichever of the three separators stands between each two |
| Decompose.BatchResplitsExactly | cmd/nilcore/decompose.go:88-112 | a batch of two or more plans back into its sub-goals if and only if they are batchable |
| Decompose.ClampDropsNoWork | cmd/nilcore/decompose.go:96-105 | exactly max children, the first max - 1 as they were, the last one lossless exactly when the rest is batchable |
| MergeFold.Integrator.MergeOne | internal/integrate/integrate.go:191-312 | one merge with every disposition, also a conflict whose MERGE_HEAD probe fails: it is reported as a plain failure and stays open |
| MergeFold.ResultSaysExactly | internal/integrate/integrate.go:191-312 | what each word of a result says of the tip and the tree: verified exactly when the tip held the branch or has grown by it to stay, dirty exactly when a recognised conflict is still open, and so on |
| MergeFold.Integrator.Integrate | internal/integrate/integrate.go:157-182 | the fold with its early stops |
| MergeFold.Integrator.IntegrateBranches | cmd/nilcore/decompose.go:149-193 | the report: counts, and the verifier's word on the working tree the fold leaves, which is the final tip unless a merge is open |
| MergeFold.VerifiedChildrenAreMerged | cmd/nilcore/decompose.go:149-182 | only children that verified and kept a branch reach the tip; the results are theirs, one by one in plan order as far as the fold went, and every other child is counted as dropped |
| MergeFold.FoldStopsExactly | internal/integrate/integrate.go:159-180 | results follow the plan order; one is missing exactly when, before the last fold, HEAD could not be read, or a recognised conflict or open merge could not be aborted |
| MergeFold.ChildrenAreConservedExactly | cmd/nilcore/decompose.go:149-182 | children behind a cut fold are in neither count; merged plus dropped equal the children exactly when no fold before the last is cut, a condition on the git calls alone |
| MergeFold.CutsWithWorkingResets | internal/integrate/integrate.go:191-245 | with working resets and probes the fold goes on exactly while heads are read and conflicts abort |
| MergeFold.CutFoldLosesAChild | cmd/nilcore/decompose.go:149-182 | a concrete plan of two children of which one is counted |
| MergeFold.TipIsKeptAndGreen | internal/integrate/integrate.go:159-180 | the tip is the kept branches in plan order exactly when every rollback that was needed worked, and then any tip past the base is green |
| MergeFold.TipCounts | internal/integrate/integrate.go:159-180 | the tip holds one branch for each kept result and one for each rollback that failed |
| MergeFold.NoneStuck | internal/integrate/integrate.go:278-302 | working resets leave no rejected branch behind |
| MergeFold.RollbackDecidesExactly | internal/integrate/integrate.go:278-302 | a rejected merge leaves the tip untouched exactly when its rollback works |
| MergeFold.VerdictIsTheFinalTips | cmd/nilcore/decompose.go:183-192 | the reported verdict is the final tip's, whatever an open merge leaves in the tree, exactly when the fold does not end mid-merge; then, with no rejected branch stuck, it is red exactly for an untouched red base |
| MergeFold.FoldEndsOpenExactly | internal/integrate/integrate.go:159-300 | the fold ends mid-merge exactly when a merge that some fold opens (an unrecognised or unabortable conflict, or neither commit nor reset) is closed by no later fold that runs |
| MergeFold.OnlyAFailedAbortLeavesOneOpen | internal/integrate/integrate.go:226-245 | with working resets and probes that is exactly the first conflict the fold comes to that cannot be aborted |
| MergeFold.ConflictedTreeIsReported | cmd/nilcore/decompose.go:183-192 | a concrete plan whose verdict is the conflicted tree's, the opposite of its tip's, with nothing stuck on the tip |
| ShardRun.Board.RecordVerdict | internal/swarm/board/board.go:191-226 | one verdict folded into the tallies |
| ShardRun.BranchIsFresh | cmd/nilcore/swarm.go:905-917 | with a fresh suffix no attempt is cut on an existing branch |
| ShardRun.PlainNameExactly | cmd/nilcore/swarm.go:904-917 | exactly a first attempt from the base, with no branch of its name left over, keeps the plain name |
| ShardRun.ShardContext.Run | cmd/nilcore/swarm.go:884-1075 | every path records exactly one verdict, equal to the returned one; it passes exactly when every stage and the governing check did, and then has a branch under merge fan-in |
| ShardRun.ShardContext.RunAll | cmd/nilcore/swarm.go:884-1075 | a wave records one verdict per shard |
| ShardRun.TalliesCountTheLatestPass | internal/swarm/board/board.go:195-225 | the tallies count exactly the verdicts from the first of the latest pass on |
| ShardRun.TalliesCountEveryRunExactly | internal/swarm/board/board.go:195-225 | passes plus failures equal the attempts exactly when no later pass intervened |
| ShardRun.RetriesAreCountedExactly | internal/swarm/board/board.go:213-221 | the retry count is the number of verdicts of the latest pass that turned a failed shard green |
| Flows.Producers | cmd/nilcore/flows.go:89-96 | the map names the first producer of each artifact |
| Flows.DeriveEdges | cmd/nilcore/flows.go:97-113 | every edge is derived, keys are distinct, every derived key is there |
| Flows.EdgesCompleteExactly | cmd/nilcore/flows.go:105-112 | each derived edge is there, once, exactly when no two share a key |
| Flows.ArrowlessKeysTellApart | cmd/nilcore/flows.go:105 | keys are injective when `from` has no "->" |
| Flows.ArrowlessFlowsAreComplete | cmd/nilcore/flows.go:88-113 | the edges are exactly the first-producer pairs with distinct ends when no producer id has "->" |
| Flows.ArrowsLoseAnEdge | cmd/nilcore/flows.go:105-108 | two derived edges with one key |
| Flows.OrderedFlowsAreAcyclic | cmd/nilcore/flows.go:84-113 | when producers come earlier and equal ids stand next to each other, every dependency path goes strictly forward: no cycle |
| Flows.OrderMakesAcyclicExactly | cmd/nilcore/flows.go:84-113 | for a list of ids, every flow document over it whose producers come earlier is acyclic if and only if equal ids are contiguous |
| Flows.GapClosesACycle | cmd/nilcore/flows.go:89-112 | any id repeated around another one admits such a document with a cycle |
| Flows.RepeatedIdsCloseACycle | cmd/nilcore/flows.go:97-111 | a repeated id closes a cycle |
| HardEgress.SameKeyExactly | cmd/nilcore/egress_hard.go:104-108 | one key exactly for the same runtime and image and permuted allowlists, or two lists without a host |
| HardEgress.Gateways.GetHardEgress | cmd/nilcore/egress_hard.go:83-100 | a cached gateway is reused; a failed setup changes nothing |
| HardEgress.Gateways.StopHardEgress | cmd/nilcore/egress_hard.go:123-132 | takes over list and cache, then calls every teardown: each has acted, and acted once |
| HardEgress.TeardownsRunExactlyOnce | cmd/nilcore/egress_hard.go:83-132 | in every run each gateway with a teardown waits once or was called once, and failures are never cached |
| HardEgress.GatewayIsReused | cmd/nilcore/egress_hard.go:87-89 | between drains a key keeps its gateway |
| HardEgress.OnceTeardown.Call | cmd/nilcore/egress_hard.go:196-206 | whoever calls it and however often, a teardown acts once |
| SelfAcceptance.Acceptance.RunCandidates | cmd/nilcore/selfacc.go:188-242 | operator checks first, then proposed ones, folded into the verdict |
| SelfAcceptance.ConsiderExactly | cmd/nilcore/selfacc.go:188-242 | one candidate: what it binds, when it fails, and exactly which lines the log gains |
| SelfAcceptance.VerdictIsHonestExactly | cmd/nilcore/selfacc.go:208-241 | the verdict is that of every bound check's own command, in every sandbox, exactly when the lookups ran what was bound |
| SelfAcceptance.TidyRunsItsOwn | internal/artifact/evverify/registry.go:226-239 | that condition holds when bound ids carry no surrounding white space |
| SelfAcceptance.UntidyIdBorrowsAVerdict | internal/artifact/evverify/registry.go:227-238 | an id with white space borrows another check's pass, and its trust |
| SelfAcceptance.DenialIsNoFailure | cmd/nilcore/selfacc.go:191-207 | un-admissible and denied candidates change no binding, failure or verdict |
| SelfAcceptance.AppendingOnlyReddens | cmd/nilcore/selfacc.go:224-241 | more candidates only turn true to false |
| SelfAcceptance.TrustIsEarnedExactly | cmd/nilcore/selfacc.go:218-223 | trust is recorded for exactly the gated checks bound and run, in order |
| SelfAcceptance.TrustIsOwn | cmd/nilcore/selfacc.go:218-223 | with tidy ids each outcome is that of the scope's own command |
| FaultPlan.MakePlan | eval/browse/browse.go:46-55 | faults exactly at the steps below maxSteps with everyN dividing step + 1 |
| FaultPlan.MergeLaws | eval/browse/browse.go:58-67 | associative, biased to the right, the empty plan is the identity |
| FaultPlan.Merge | eval/browse/browse.go:58-67 | the copy loops equal the overlay |
| FaultPlan.Steps | eval/browse/browse.go:78-85 | the strictly increasing key list |
| FaultPlan.IncreasingIsUnique | eval/browse/browse.go:78-85 | which is determined by the keys |
| FaultPlan.PlannedSteps | eval/browse/browse.go:46-85 | the steps of a plan are one in every everyN |
| FaultPlan.IndexOf | eval/browse/browse.go:214-224 | the first occurrence, -1 when there is none or the needle is empty |
| FaultPlan.ContainsFold | eval/browse/browse.go:196-202 | found exactly when the needle occurs up to ASCII case |
| FaultPlan.ToLower | eval/browse/browse.go:204-212 | lowers ASCII capitals in a copy |
| FaultPlan.Reliability.Record | eval/browse/browse.go:145-150 | the tally counts runs and achieved runs |
| FaultPlan.Reliability.PassPowK | eval/browse/browse.go:162-164 | at least one run, and every run achieved |
| FaultPlan.Reliability.PassAt1 | eval/browse/browse.go:153-158 | the success rate, 1 exactly when pass^k holds |
| Utf8Clip.ClipBytes | cmd/nilcore/build.go:1119-1127 | computes the clip on every byte string and limit |
| Utf8Clip.ClipRunes | cmd/nilcore/build.go:1440-1449 | computes the same clip |
| Utf8Clip.ClipIsLongestValidPrefix | cmd/nilcore/build.go:1119-1127 | on valid UTF-8 the clip is the longest valid prefix within the budget and gives up at most three bytes |
| Utf8Clip.ValidPrefixIffRuneStart | cmd/nilcore/build.go:1123-1125 | a proper prefix is valid exactly when a rune starts at its end |
| Utf8Clip.ValidIsEncodedExactly | cmd/nilcore/build.go:1119-1127 | a byte string is valid exactly when it encodes a text, by the encoding of section 3 of RFC 3629 |

## Left out

- Model and provider calls, prompts, tools, drivers, the network, rendering, flags and key handling: outside the protocols.
- Git, container and sandbox commands: replaced by abstract refs, worktrees and gateways whose failures are parameters.
- Hash chaining, JSON and SQLite formats: the log is a sequence, a row's Detail is a map.
- mergedBaseTip and the worker's base choice (cmd/nilcore/build.go:763-880): a short decision over refs that the run-end sweep removes.
- orderPreferredFirst, expandAutoBackends, markObjectiveSuccess, preset tables and opt-ins: one branch settles each.
- Wall-clock time beyond due or not due and the UTC day; the wake note and its clipping.
- The token counter and styling of the transcript, and the modal an ask opens.
- The Controller of a swarm run: its termination promise is the assumption `Converges`; its passes are not part of this model.
- Requeue.Runner.PlanFixes: fixes come in first-seen order, not sorted, so which of two fixes with one id runs is left open; nor are their goal texts and unit keys modelled, or the sorted order of reported keys.
- The scope hash of a self-authored check: a scope is its id and trimmed command, so a collision of the shortened hash is not modelled.
- The admission rules of a self-authored check and the gate's decision: given per candidate. A command behaves the same whenever it runs.
- FaultPlan.MakePlan: steps are unbounded integers; the 64-bit counter of the source would wrap for an everyN above 2^63 - maxSteps.
- BlastBudget.Budget.ChargeAutoApprovalDollars: dollars are exact reals, so rounding beyond the modelled slack of 1e-9 is not covered.
- FaultPlan.Reliability.PassAt1: the rate is an exact real.
- Decompose.DecomposePlan: text is a sequence of Unicode scalar values; bytes that are no UTF-8 are not modelled.
- KeptBranches.CoveredWorkStaysCovered: the base is whatever is checked out and no step switches the checkout, so work that landed on a branch the operator then leaves is outside the run theorem.
- ServeDrive: the drive's end is a trace of durable states over those of the modelled steps, not a method of a class.
- WakeFire.Registry.Feed: a poller's tick runs alone in the class; interleavings are the subject of the step relation.
- DurableResume.Server.ResumeSupervise: node translation between the two snapshot types is a field-for-field copy and is not modelled as a loop.
