# Verified model of the desktop-pet controller and renderer cores

A Dafny model of the stateful cores of the repository, with proofs over every run:

* **Event bus and hit chain** (`Text`, `EventId`, `EventTypes`, `EventTable`, `EventHistory`,
  `EventDispatch`, `EventEffects`, `EventBudget`, `EventBus`, `HitAdjacency`, `HitChain`, `HitSession`, `HitWiring`).
  Listeners are arbitrary finite scripts: they may edit the subscription table, set or clear the
  cancelled flag, throw, and publish again from inside a call, and what they do may depend on
  everything that happened before. `EventBus.EventBus` is the table updated in place by loops, with a
  re-entrant `Publish`; the other modules prove what that means for every run.
* **Instance roster** (`RosterModel`, `RosterSafety`, `RosterWave`, `RosterCorners`, `RosterStore`,
  `InstanceRoster`). Sessions with their renderer processes, two-phase delete, queued restart,
  asynchronous stop completion, the stop-all wave and the stored roster, as a step relation in which
  renderers exit, fail, are given up on, and completions arrive in any order. `InstanceRoster` holds
  the session and manager objects, each method tied to its step.
* **Model switches** (`ModelSwitch`): the in-flight flag, rollback, disk and wire of one session.
* **Downloads and installs** (`Downloads`, `DownloadHistory`, `DownloadService`, `ArchivePaths`, `ArchiveInstall`,
  `ArchiveTree`): download jobs under any interleaving of network events, and the two-pass archive
  installer over a file tree.
* **Renderer loops** (`MipChain`, `TextureTables`, `ProgressThrottle`, `LipSync`).

`Options` holds the optional values that several modules use.

Code that updates state is modelled by classes and loops; each method is proved equal to a function on
values, and the theorems are proved about those functions and their runs.

`dafny verify dfyconfig.toml` checks the whole project.

## Where the code and its documentation part

The model follows the code. Each case below is a theorem.

* A repeated `stopAll` is documented as keeping an active wave (`InstanceManager.hpp`, lines 206-207).
  It keeps it exactly while some renderer is alive; with all renderers down and a completion still
  queued, the repeated call drops the wave, and no run without a further `stopAll` emits
  `stopAllFinished` (`RosterCorners.RepeatedStopAllAnnouncedIff`, reachable by
  `RosterCorners.DeadWaveReachable`).
* An active wave needs a completion on its way: the world alone, without a panel call, can announce it
  exactly then (`RosterCorners.CanAnnounceIff`), and a wave without one stays unannounced whatever the
  world does (`RosterCorners.LostStays`); a later start, stop or `stopAll` may still end it.
  `RosterWave.WaveStep` says of every step exactly whether it takes the last completion away, and
  `RosterWave.WaveAnnouncedOnce` that a wave no step loses or drops is announced exactly once.
  Two of the steps that can lose it:
  * A delete loses it exactly when the row is not pending, its process is gone without an exit notice
    while its stop waits for the poll, no completion of it is queued, and nothing else has one on its
    way (`RosterCorners.DeleteKeepsWaveIff`, reachable by `RosterCorners.DeleteLosesReachable`).
  * Giving up on a stop keeps one completion queued, so the wave survives that step itself; afterwards
    the world can lose it exactly when the session is not waiting to be removed, or when a live
    renderer that nobody stops was there before (`RosterCorners.AbandonLosesIff`, an instance of
    `RosterCorners.CanLoseIff`; reachable by `RosterCorners.AbandonReachable`).
* A two-phase delete removes its row only after the renderer died exactly when no completion of an
  earlier stop is still queued at the call. `stop` on an idle session queues such a completion
  (`RosterSafety.TwoPhaseDeleteSafeIff`, `RosterCorners.StaleCompletionReachable`). A stop that is given
  up on (a process that survives the kill) also frees the row early (`RosterSafety.AbandonedDeleteUnsafe`).
* The immediate delete of an idle session does not mark it doomed, so a queued restart still launches
  a renderer for a session that already left the roster
  (`RosterSafety.ImmediateDeleteStaysDownIff`, `RosterCorners.OwedLaunchReachable`).
* A verdict carries no tag of the switch it answers. The first verdict decides, so a late confirmation
  of an earlier switch leaves a failed newer model in memory and on disk
  (`ModelSwitch.FailureRollsBackIff`, `ModelSwitch.FirstVerdictDecides`,
  `ModelSwitch.LateConfirmationKeepsFailedModel`, from states that `ModelSwitch.InFlightReachable` reaches).
* A model switched while the renderer is offline is only stored. When the socket comes back without a new
  ready, the session is connected while the last command still names the old model
  (`ModelSwitch.ReconnectKeepsOldCommand`). Otherwise the last command names the model in memory, as long as
  nothing failed and no switch went unsent after it (`ModelSwitch.LastCommandNamesModel`); a single step
  breaks that exactly when it sends nothing and changes name or path (`ModelSwitch.ToldStepIff`).
* The write of the tail bytes at the end of a download is not checked; the staged file holds the
  hashed bytes exactly when that write was complete (`Downloads.StagedIsHashedIff`).
* The final move of an install clears the old item directory before it can fail. A failed install leaves
  the disk as it was exactly when it does not get as far as clearing an item directory that holds
  something; otherwise the old item is gone (`ArchiveInstall.FailedInstallKeepsIff`).
* The install gate does not look at directory flags: a directory entry satisfies the sentinel check,
  and an archive of directories only is accepted and then fails in the final move, after the old item
  is gone (`ArchiveTree.AcceptanceIgnoresDirs`, `ArchiveTree.SentinelInstalledIff`,
  `ArchiveTree.OnlyDirectories`), also in a world where nothing goes wrong (`ArchiveTree.OldItemLost`).
* Texture ids come from a 32-bit counter; past the wrap a creation keeps ids unique exactly when the
  next counter value is not in use (`TextureTables.UniqueAfterCreateIff`), and a run leads to one that
  is (`TextureTables.SharedIdReachable`).

## Model

Rows that begin with "remark" read one branch of a definition back for the reader; the results about
whole runs stand in the rows next to them.

| member | source | states |
|---|---|---|
| EventId.IsValidEventId | controller_qt/src/core/EventBus.cpp:28-57 | the one-pass scan accepts a string exactly when splitting it on dots gives at least three segments, each non-empty and over [a-z0-9_] |
| Text.SplitOfJoin | controller_qt/src/core/EventBus.cpp:30-33 | splitting is the inverse of joining separator-free pieces, so the segments the scan is judged by are the real ones |
| Text.SplitIsExact | controller_qt/src/core/EventBus.cpp:30-33 | joining the pieces of a split gives the string back, and no piece holds a separator |
| EventTable.StableSortEffect | controller_qt/src/core/EventBus.cpp:98-104 | the sort orders by priority and keeps every tier in its old order |
| EventTable.TiersDetermine | controller_qt/src/core/EventBus.cpp:98-104 | a sorted list is determined by its tiers: there is only one stable sort |
| EventTable.SubscribePlacement | controller_qt/src/core/EventBus.cpp:76-105 | a new listener lands last in its tier, a promoted one last and a demoted one first in its new tier, and all other pairs keep their order |
| EventTable.SubscribeEffect | controller_qt/src/core/EventBus.cpp:59-106 | a subscription puts the listener on its channel once, with its priority and publisher, beside the others; a refused one changes nothing, and no other channel changes |
| EventTable.UnsubscribeEffect | controller_qt/src/core/EventBus.cpp:108-119 | off a channel goes exactly that listener, the others keep their order, and no other channel changes |
| EventTable.SweepEffect | controller_qt/src/core/EventBus.cpp:171-189 | exactly the entries of other publishers are left on every channel, in their order |
| EventTable.ApplyAllKeepsValid | controller_qt/src/core/EventBus.cpp:59-119 | every run of subscribes, unsubscribes and sweeps leaves only legal channels, each non-empty, sorted and free of duplicate listeners |
| EventHistory.ChannelIsSortedHistory | controller_qt/src/core/EventBus.cpp:76-119 | after any edit history a channel equals the stable sort of a list kept in arrival order |
| EventBus.EventBus.Subscribe | controller_qt/src/core/EventBus.cpp:59-106 | the in-place merge or append with re-sort, and which arguments are refused |
| EventBus.EventBus.Unsubscribe | controller_qt/src/core/EventBus.cpp:108-119 | the listener is gone from the channel, an emptied channel is erased, everything else stays |
| EventBus.EventBus.RemoveIf | controller_qt/src/core/EventBus.cpp:113-116 | the backward removal loop keeps exactly the entries that satisfy the predicate, in order |
| EventBus.EventBus.UnsubscribeByPublisher | controller_qt/src/core/EventBus.cpp:171-189 | on every channel exactly the entries of other publishers are left, in their order; the result is the number of the publisher's entries, and the drop of the total count |
| EventBus.EventBus.SubscriptionCount | controller_qt/src/core/EventBus.cpp:191-197 | the sum of all channel sizes |
| EventTable.TotalPut | controller_qt/src/core/EventBus.cpp:171-197 | replacing one channel changes the total by the difference of its sizes |
| EventTable.TotalZeroIff | controller_qt/src/core/EventBus.cpp:191-197 | the count is zero exactly when there is no entry |
| EventBus.EventBus.Publish | controller_qt/src/core/EventBus.cpp:121-169 | the re-entrant loop over the snapshot with the depth counter, on every path, is the dispatch function |
| EventBus.EventBus.OnEvent | controller_qt/src/core/EventBus.cpp:154-166 | one listener call, step by step, with nested publishes |
| EventDispatch.Dispatch | controller_qt/src/core/EventBus.cpp:121-169 | terminates for arbitrary listeners; the depth is back on return, nothing noted is lost, and only the cancelled flag of the event is written |
| EventDispatch.DispatchCallsEachOnce | controller_qt/src/core/EventBus.cpp:133-168 | each listener of the start-of-dispatch snapshot is called exactly once, in order, whatever the listeners do; no call happens above the depth cap; Busy and InvalidArgument change nothing and come exactly when stated |
| EventDispatch.NonCancellableStaysClear | controller_qt/src/core/EventBus.cpp:133-167 | a non-cancellable event posted clear is seen clear by every listener and returns clear; a set flag survives only when nobody is called |
| EventDispatch.DispatchKeeps | controller_qt/src/core/EventBus.cpp:145-168 | any table invariant kept by the edits that listeners may make is kept by every dispatch |
| EventDispatch.DispatchKeepsValid | controller_qt/src/core/EventBus.cpp:145-168 | the table stays valid through every dispatch |
| EventEffects.DispatchStarts | controller_qt/src/core/EventBus.cpp:145-168 | the first listener called finds the flag as posted, and so does the poster when nobody is called |
| EventEffects.DispatchPasses | controller_qt/src/core/EventBus.cpp:154-167 | for a cancellable event, what a called listener leaves the flag at is what the next one called finds, or what the poster gets back after the last one |
| EventEffects.LastListenerDecides | controller_qt/src/core/EventBus.cpp:154-167 | the value that the last called listener leaves on every path is returned |
| EventEffects.NobodyWrites | controller_qt/src/core/EventBus.cpp:154-167 | when no called listener writes the flag, the posted value is returned |
| EventEffects.NestedPublishLearns | controller_qt/src/core/EventBus.cpp:121-169 | a listener that publishes goes on by what became of its event: refused, claimed or clear |
| EventEffects.DispatchEdits | controller_qt/src/core/EventBus.cpp:145-168 | listeners that publish nothing leave the table with all their edits, in the order of the calls |
| EventBudget.FeedbackBounded | controller_qt/src/core/EventBus.cpp:133-168 | with N listeners and at most P nested publishes per call, a publish makes at most B(depth) calls, where B(8) = 0 and B(d) = N * (1 + P * B(d + 1)) |
| HitAdjacency.SubscribeAdjacent | controller_qt/src/core/InstanceSessionHandlers.cpp:35-46 | no subscription of another listener, new or with a changed priority, comes between two adjacent entries of one tier |
| HitAdjacency.AddPairs | controller_qt/src/core/InstanceSessionHandlers.cpp:47-59 | the first binding of a session puts its voice-pack adapter directly before its fallback adapter |
| HitAdjacency.BindPairs | controller_qt/src/core/InstanceSessionHandlers.cpp:33-60 | so does binding it again, after taking both adapters off |
| HitAdjacency.SweepPaired | controller_qt/src/core/EventBus.cpp:171-189 | a sweep of another publisher keeps every pair together |
| HitAdjacency.AllowedKeepsPaired | controller_qt/src/core/InstanceSessionHandlers.cpp:33-60 | any edits of other listeners, and any first binding, rebinding or unbinding of a session, keep all pairs adjacent |
| HitChain.HitDecidedOnce | controller_qt/src/core/InstanceSessionHandlers.cpp:81-218 | for one hit, a bound session makes exactly the direct decision once, or nothing when the hit arrives claimed, and all other sessions do nothing, whatever other listeners do to the flag or the table |
| HitChain.HitReaction | controller_qt/src/core/InstanceSessionHandlers.cpp:81-218 | an unclaimed hit gets, as its only reaction: the default one outside the areas of the pack; nothing inside the window of an earlier behaviour; else the built behaviour with a window of its audio length, or 4000 ms, or the default reaction when none is built |
| HitChain.BehaviorRuns | controller_qt/src/core/InstanceSessionHandlers.cpp:141-195 | the behaviour is noted with its window, then its line goes out to the listeners of dialogue, then the hit is claimed |
| HitChain.TakenHitReturnsClaimed | controller_qt/src/core/InstanceSessionHandlers.cpp:62-79 | a hit that the voice pack took returns claimed when no other listener called after it writes the flag |
| HitChain.DispatchKeepsPaired | controller_qt/src/core/InstanceSessionHandlers.cpp:35-46 | adjacency survives every dispatch, nested ones included |
| HitChain.DispatchSpaced | controller_qt/src/core/InstanceSessionHandlers.cpp:128-154 | every behaviour was built for an area of its voice pack and arms a window of its audio length, or 4000 ms, and two behaviours of one session are at least the first one's window apart |
| HitChain.ActiveUntilCovers | controller_qt/src/core/InstanceSessionHandlers.cpp:132-154 | the cooldown end is never before the end of an earlier window |
| HitChain.UnclaimedHitDecided | controller_qt/src/core/InstanceSessionHandlers.cpp:109-196 | a hit that reaches the voice-pack adapter of a bound session unclaimed gets exactly the decision taken at that call, and no other reaction |
| HitChain.HitInsideWindowSwallowed | controller_qt/src/core/InstanceSessionHandlers.cpp:125-139 | a dispatched hit that reaches the adapter unclaimed inside any earlier window of its session is swallowed: no behaviour and no fallback, whatever other listeners do |
| HitChain.InsideWindowSwallowed | controller_qt/src/core/InstanceSessionHandlers.cpp:125-139 | the decision behind it: inside any earlier window, on this bus or an earlier one, a matching hit is swallowed |
| HitChain.EveryHostRun | controller_qt/src/core/InstanceSessionHandlers.cpp:33-218 | in every reachable state pairs are adjacent, behaviours are spaced and the depth is zero |
| HitSession.Session.SetEventPublisher | controller_qt/src/core/InstanceSessionHandlers.cpp:33-60 | off the old bus, then both adapters onto the new one, also when it is the same bus; afterwards the two are adjacent, all other pairs still are, and the cooldown is kept |
| HitSession.Session.MountedOnEvent | controller_qt/src/core/InstanceSessionHandlers.cpp:109-196 | the voice-pack adapter's body on the session's own cooldown field is the adapter script; a behaviour arms the length of its audio, or 4000 ms; the field stays in step with what happened |
| HitSession.Session.FallbackOnEvent | controller_qt/src/core/InstanceSessionHandlers.cpp:198-218 | the fallback adapter's body |
| HitSession.Session.PublishHostEvent | controller_qt/src/core/InstanceSessionHandlers.cpp:62-79 | what the listeners made of the flag comes back to the poster, and false without a bus |
| HitSession.Session.HandleHitEvent | controller_qt/src/core/InstanceSessionHandlers.cpp:62-107 | a hit is one cancellable publish with the session's id, decided once; pairs stay adjacent; nothing happens without a bus or at the depth cap |
| HitSession.Session.RefusedAtCap | controller_qt/src/core/EventBus.cpp:135-145 | at the depth cap a hit changes nothing and is answered Busy, or Ok when nobody is subscribed |
| HitWiring.WireIsWired | controller_qt/src/core/InstanceSessionHandlers.cpp:109-218 | any plugin code within the stated limits, beside the two adapters, meets the assumptions of the hit theorems |
| HitWiring.WireIsTame | controller_qt/src/core/InstanceSessionHandlers.cpp:168-188 | the adapters publish at most once per call, so the plugins set the feedback bound |
| RosterSafety.RunInv | controller_qt/src/core/InstanceManager.cpp:163-272 | over every run, ids are distinct, the pending deletes are exactly the doomed sessions, and each of them has a stop outstanding and no queued start |
| RosterSafety.RowAfter | controller_qt/src/core/InstanceManager.cpp:163-272 | which steps remove a row, and the exact state of every row that stays |
| RosterSafety.DoomedNeverLaunches | controller_qt/src/core/InstanceSession.cpp:257-281 | a doomed session stays doomed without ever launching until its completion removes it |
| RosterSafety.TwoPhaseDeleteSafeIff | controller_qt/src/core/InstanceManager.cpp:180-272 | the row goes only after the renderer died, in every continuation without an abandoned stop, exactly when no completion is queued at the call |
| RosterSafety.AbandonedDeleteUnsafe | controller_qt/src/core/ProcessManager.cpp:218-228 | giving up on the stop lets the row go with the renderer alive |
| RosterSafety.ImmediateDeleteStaysDownIff | controller_qt/src/core/InstanceManager.cpp:204-232 | after an immediate delete the session's renderer stays down exactly when no queued start waits for a queued completion |
| RosterSafety.StartDuringStopHappens | controller_qt/src/core/InstanceSession.cpp:257-297 | a start asked for while a stop is in flight brings the renderer up once it is gone and the completion arrives |
| RosterSafety.RestartHappens | controller_qt/src/core/InstanceSession.cpp:633-696 | a restart of a live renderer stops it and brings it back |
| RosterSafety.LaunchesBounded | controller_qt/src/core/InstanceSession.cpp:675-696 | over every run the renderer of a row comes up at most once per start or restart asked for |
| RosterWave.AnnouncedWhenAllDown | controller_qt/src/core/InstanceManager.cpp:256-271 | stopAllFinished comes only from a completion that finds the wave active and no live roster renderer |
| RosterWave.StopAllOpensWave | controller_qt/src/core/InstanceManager.cpp:334-357 | stopAll opens a wave exactly when a renderer is alive; then every live one has its stop in flight, a completion is on its way, and dead rows stay as they are |
| RosterWave.WaveStep | controller_qt/src/core/InstanceManager.cpp:245-272 | each step of an active wave, exactly: which steps take the last completion away, that a repeat with nothing alive drops it, and that every other end is announced once |
| RosterWave.WaveAnnouncedOnce | controller_qt/src/core/InstanceManager.cpp:245-272 | over every run, a wave that no step loses or drops is announced exactly once, when it ends, and until then a completion is on its way; launches, deletes, abandoned stops and repeated calls included |
| RosterWave.AnnouncementsBounded | controller_qt/src/core/InstanceManager.cpp:256-271 | over every run there are no more announcements than stopAll calls |
| RosterWave.StoppingLosesByDelete | controller_qt/src/core/ProcessManager.cpp:194-206 | while every live renderer is being stopped, a step loses the wave exactly when it is the delete before the poll |
| RosterWave.CalmWaveIsKept | controller_qt/src/core/InstanceManager.cpp:163-272 | without launches and abandoned stops, a wave is lost over a run only by such a delete |
| RosterCorners.CanAnnounceIff | controller_qt/src/core/InstanceManager.cpp:245-272 | the world alone can announce an active wave exactly when a completion is on its way |
| RosterCorners.LostStays | controller_qt/src/core/InstanceManager.cpp:245-272 | a wave without one stays active and unannounced over everything the world does |
| RosterCorners.RepeatedStopAllAnnouncedIff | controller_qt/src/core/InstanceManager.cpp:346-357 | after a repeated stopAll the world can announce the wave exactly when a renderer is alive; otherwise no run without a further stopAll announces it |
| RosterCorners.DeleteKeepsWaveIff | controller_qt/src/core/InstanceManager.cpp:163-206 | after a delete the world can still announce the wave exactly unless the row stopped without notice, waits for the poll with no completion queued, and is the last one with a completion on its way |
| RosterCorners.DeleteLosesReachable | controller_qt/src/core/ProcessManager.cpp:194-206 | a run leads to such a delete |
| RosterCorners.CanLoseIff | controller_qt/src/core/InstanceManager.cpp:245-272 | the world settling down can lose an active wave exactly when it is lost already or a live renderer has no stop in flight and no pending delete |
| RosterCorners.AbandonLosesIff | controller_qt/src/core/ProcessManager.cpp:218-228 | after giving up on a stop the world can lose the wave exactly when the session is not waiting to be removed, or such a renderer was there before |
| RosterCorners.AbandonReachable | controller_qt/src/core/ProcessManager.cpp:218-228 | a run leads to such an abandoned stop |
| RosterCorners.StaleCompletionReachable | controller_qt/src/core/ProcessManager.cpp:146-154 | a run leads to a live renderer with a stale completion queued |
| RosterCorners.OwedLaunchReachable | controller_qt/src/core/InstanceSession.cpp:633-652 | a run leads to an idle session with a launch owed |
| RosterCorners.DeadWaveReachable | controller_qt/src/core/InstanceManager.cpp:334-357 | a run leads to an active wave with every renderer down |
| RosterStore.StepStored | controller_qt/src/core/InstanceManager.cpp:448-474 | with working reads and writes one step keeps the stored order equal to the live one, a row for every id, and the other panel fields |
| RosterStore.StepKeepsConfig | controller_qt/src/core/InstanceManager.cpp:105-243 | a step touches the config row of no instance that stays, except by writing it |
| RosterStore.FailedReadWipesFields | controller_qt/src/core/InstanceManager.cpp:448-474 | a roster change whose read fails and whose write succeeds wipes the other panel fields; with a failing write the store stays as it is |
| RosterStore.CreateAppends | controller_qt/src/core/InstanceManager.cpp:105-153 | remark: one fresh row at the end with its config saved, or nothing at all |
| RosterStore.DeletedConfigGone | controller_qt/src/core/InstanceManager.cpp:208-243 | a row that leaves takes its stored config and id with it, and the other rows stay in order |
| RosterStore.RunStored | controller_qt/src/core/InstanceManager.cpp:448-474 | over every such run the stored ids are the live roster in order and the other fields are as last written by anyone |
| RosterStore.RestartRebuilds | controller_qt/src/core/InstanceManager.cpp:485-517 | a restart rebuilds the same id sequence, in a state in which the roster invariant and the stored order hold again |
| RosterStore.LivesStored | controller_qt/src/core/InstanceManager.cpp:448-517 | so over any number of restarts the stored ids stay the live roster in order |
| RosterStore.ReloadRebuilds | controller_qt/src/core/InstanceManager.cpp:485-517 | a restart at any point of any life rebuilds the same id sequence |
| RosterStore.LoadKeepsRows | controller_qt/src/core/InstanceManager.cpp:485-517 | a start loads exactly the stored ids that have a row, in order, each as a fresh session |
| RosterStore.NextChangeHeals | controller_qt/src/core/InstanceManager.cpp:464-473 | a drifted stored order is repaired by the next create or completed delete whose write succeeds |
| InstanceRoster.InstanceSession.Start | controller_qt/src/core/InstanceSession.cpp:257-297 | rejected when doomed, queued while a stop is in flight, else launched when possible |
| InstanceRoster.InstanceSession.Stop | controller_qt/src/core/ProcessManager.cpp:138-180 | absorbed while in flight, a queued completion for a dead process, else in flight |
| InstanceRoster.InstanceSession.Restart | controller_qt/src/core/InstanceSession.cpp:633-652 | queue the start, then stop |
| InstanceRoster.InstanceSession.SetDeletePending | controller_qt/src/core/InstanceSession.cpp:661-668 | mark and drop the queued start |
| InstanceRoster.InstanceSession.FinishStop | controller_qt/src/core/ProcessManager.cpp:230-248 | one queued completion per initiated stop |
| InstanceRoster.InstanceSession.OnFinished | controller_qt/src/core/ProcessManager.cpp:278-310 | the exit notice comes before the completion of the stop |
| InstanceRoster.InstanceManager.CreateInstanceScoped | controller_qt/src/core/InstanceManager.cpp:105-153 | save, append, persist; nothing when the save fails |
| InstanceRoster.InstanceManager.DeleteInstance | controller_qt/src/core/InstanceManager.cpp:163-206 | ignored when pending or unknown, phase one for a live renderer, else immediate removal |
| InstanceRoster.InstanceManager.FinishInstanceDeletion | controller_qt/src/core/InstanceManager.cpp:208-243 | the row moves to the sessions awaiting destruction, its config goes, the roster is saved |
| InstanceRoster.InstanceManager.OnSessionStopFinished | controller_qt/src/core/InstanceManager.cpp:245-272 | phase two of a delete, then the wave accounting |
| InstanceRoster.InstanceManager.StopAll | controller_qt/src/core/InstanceManager.cpp:334-357 | every live session is stopped, the result is their number, the wave flag is set accordingly |
| InstanceRoster.InstanceManager.PersistRoster | controller_qt/src/core/InstanceManager.cpp:448-474 | load, overwrite the order, save |
| InstanceRoster.InstanceManager.RowForUuid | controller_qt/src/core/InstanceManager.cpp:476-483 | the first row with the id, or -1 |
| InstanceRoster.InstanceManager.LoadFromDisk | controller_qt/src/core/InstanceManager.cpp:485-517 | the stored ids that have a row, in order |
| InstanceRoster.AnswerIsDelivery | controller_qt/src/core/InstanceSession.cpp:675-696 | what the handler does to the manager is the delivery step, for a session on the roster and for one off it |
| InstanceRoster.AnswerIsStep | controller_qt/src/core/InstanceSession.cpp:675-696 | in every state of every run a queued completion meets what its handler requires, and the answer is the next step of the run |
| InstanceRoster.InstanceManager.OnProcessStopFinished | controller_qt/src/core/InstanceSession.cpp:675-696 | consume the queued start, notify the manager, relaunch: the new manager state is that answer |
| ModelSwitch.BeforeIsLastRise | controller_qt/src/core/InstanceSession.cpp:719-723 | the recorded model is the one from just before the in-flight flag last rose |
| ModelSwitch.RejectedSwitchRollsBack | controller_qt/src/core/InstanceSession.cpp:938-962 | a failure in flight restores name and scope of that moment, on disk too when saves succeed, and the tracked path exactly when another model was rejected or there was no path |
| ModelSwitch.LocalMissRollsBack | controller_qt/src/core/InstanceSession.cpp:750-765 | a scoped switch that does not resolve is rolled back on the spot and nothing is sent |
| ModelSwitch.ChainFailureReturnsToStart | controller_qt/src/core/InstanceSession.cpp:703-724 | however long an unconfirmed chain, its failure returns to the model before its first switch |
| ModelSwitch.NoSwitchNoChange | controller_qt/src/core/InstanceSession.cpp:916-962 | without a switch no run of failures, confirmations and restarts moves name, scope or disk |
| ModelSwitch.FirstVerdictDecides | controller_qt/src/core/InstanceSession.cpp:419-424 | the first verdict settles name, scope and disk; later ones change nothing |
| ModelSwitch.FailureRollsBackIff | controller_qt/src/core/InstanceSession.cpp:916-962 | over any run, a failure brings back the model from before the switch exactly when some switch has had no verdict yet, or the model is that one already |
| ModelSwitch.FlagIsOpen | controller_qt/src/core/InstanceSession.cpp:703-724 | over any run, the in-flight flag is up exactly when some switch has had no verdict since |
| ModelSwitch.LateConfirmationKeepsFailedModel | controller_qt/src/core/InstanceSession.cpp:419-424 | a late confirmation followed by the newer model's failure leaves the failed model in memory and on disk |
| ModelSwitch.InFlightReachable | controller_qt/src/core/InstanceSession.cpp:698-770 | a run leads to a connected session with a switch in flight, for any two models |
| ModelSwitch.DiskFollowsMemory | controller_qt/src/core/InstanceSession.cpp:727-735 | while saves succeed the config file always names the model in memory |
| ModelSwitch.TrackedPathWasSent | controller_qt/src/core/InstanceSession.cpp:766-770 | the tracked path and the one a rollback restores were really sent to the renderer |
| ModelSwitch.SendsExactly | controller_qt/src/core/InstanceSession.cpp:698-770 | ready and a connected switch that resolves send exactly one command, for the configured or requested name and the path found; nothing else sends |
| ModelSwitch.LastCommandNamesModel | controller_qt/src/core/InstanceSession.cpp:698-770 | over every run the last command names the model in memory when no failure and no unsent switch came after it |
| ModelSwitch.ToldStepIff | controller_qt/src/core/InstanceSession.cpp:698-770 | a step parts the last command and the model in memory exactly when it sends nothing and changes name or path |
| ModelSwitch.ReconnectKeepsOldCommand | controller_qt/src/core/InstanceSession.cpp:844-866 | a reconnect without ready after an offline switch leaves the old model on the wire |
| ModelSwitch.LoadedIsHistory | controller_qt/src/core/InstanceSession.cpp:376-426 | the model is loaded exactly when a confirmation came last among confirmations, failures, switches and losses of the renderer |
| ModelSwitch.ConnectedIsHistory | controller_qt/src/core/InstanceSession.cpp:791-866 | the session is connected exactly when a ready or connect came last among those, disconnects and losses of the renderer |
| ModelSwitch.EveryFailureCounts | controller_qt/src/core/InstanceSession.cpp:916-962 | the failure revision counts the reported failures and the unresolved scoped switches |
| ModelSwitch.FailedSavesKeepFile | controller_qt/src/core/InstanceSession.cpp:727-735 | while no save succeeds the config file stays as it is |
| ModelSwitch.Session.LoadModel | controller_qt/src/core/InstanceSession.cpp:698-770 | record once per chain, save always, stop when offline, fail locally on a miss, else send one command with the requested name and the path found |
| ModelSwitch.Session.OnReady | controller_qt/src/core/InstanceSession.cpp:347-359 | connected, path resolved anew, one command with the configured name and that path |
| ModelSwitch.Session.OnModelLoaded | controller_qt/src/core/InstanceSession.cpp:376-426 | loaded, and the in-flight flag consumed |
| ModelSwitch.Session.OnConnectionStateChanged | controller_qt/src/core/InstanceSession.cpp:844-866 | the connected flag follows the socket |
| ModelSwitch.Session.OnRendererGone | controller_qt/src/core/InstanceSession.cpp:615-632 | a stop leaves the session disconnected and the model unloaded |
| ModelSwitch.Session.ApplyModelLoadFailure | controller_qt/src/core/InstanceSession.cpp:916-962 | clear, and roll back when in flight and different |
| DownloadService.ValidateRequest | controller_qt/src/core/DownloadService.cpp:79-111 | accepts exactly https and file URLs, single-segment names, and empty or 64-digit hexadecimal hashes in either case |
| Downloads.EveryRun | controller_qt/src/core/DownloadService.cpp:118-367 | over every interleaving: at most one terminal callback per job and nothing after it, growing progress, byte count equal to the bytes hashed, no failed job in the table, a matching hash for every finished one |
| DownloadHistory.TableIsHistory | controller_qt/src/core/DownloadService.cpp:118-332 | over every run and for every started id, told from the events alone: it is downloading, cancelling or finished exactly when they say so, and its hashed bytes are the fully written chunks delivered while it was downloading, in order, then the rest at the end; the file holds them as far as they were written |
| DownloadHistory.LogAndFilesAreHistory | controller_qt/src/core/DownloadService.cpp:118-332 | over every run every callback, with its amounts and codes, and every staged file is what the events make of it |
| Downloads.IdsNeverReused | controller_qt/src/core/DownloadService.cpp:180-183 | two successful starts get different ids, and a new id has never been used or reported |
| Downloads.OverIffTold | controller_qt/src/core/DownloadService.cpp:118-367 | over every run, an active job with a listener has left the table exactly when its one error was told, and has finished exactly when its one finish was told |
| Downloads.LeavesWithError | controller_qt/src/core/DownloadService.cpp:229-304 | remark: a job leaves the table only with an error to its listener, Cancelled exactly when it was cancelled |
| Downloads.CancelledNeverFinishes | controller_qt/src/core/DownloadService.cpp:198-208 | a cancelled job never finishes and reports nothing but its cancellation |
| Downloads.FinishedStays | controller_qt/src/core/DownloadService.cpp:315-331 | a finished job stays in the table unchanged |
| Downloads.StagedIsHashedIff | controller_qt/src/core/DownloadService.cpp:270-277 | remark: the staged file is the hashed content exactly when the tail was written in full |
| Downloads.EveryRunStagesHashed | controller_qt/src/core/DownloadService.cpp:221-332 | over every run with complete tail writes each job's file is what was hashed |
| DownloadService.DownloadService.Start | controller_qt/src/core/DownloadService.cpp:118-196 | the four refusals with their codes, or a new job with a fresh id |
| DownloadService.DownloadService.Cancel | controller_qt/src/core/DownloadService.cpp:198-208 | only an active job becomes cancelling |
| DownloadService.DownloadService.HandleReadyRead | controller_qt/src/core/DownloadService.cpp:221-246 | a chunk is written, hashed, counted and reported, or a short write ends the job |
| DownloadService.DownloadService.HandleError | controller_qt/src/core/DownloadService.cpp:248-263 | a downloading job ends, a cancelling one waits |
| DownloadService.DownloadService.HandleFinished | controller_qt/src/core/DownloadService.cpp:265-332 | drain, cancelled, hash check, promotion, in this order |
| ArchivePaths.AcceptedIff | controller_qt/src/core/DownloadServiceInstall.cpp:43-61 | a stored path is accepted exactly when it is relative, has no drive letter, and walking it never leaves the extraction directory and ends below it |
| ArchivePaths.AcceptedPath | controller_qt/src/core/DownloadServiceInstall.cpp:43-61 | an accepted path cleans to ordinary components, and cleaning leads where walking leads |
| ArchivePaths.NormalIsWalk | controller_qt/src/core/DownloadServiceInstall.cpp:50-59 | a ".." survives cleaning exactly when the walk dips below its start |
| ArchiveInstall.Installer.ValidateAll | controller_qt/src/core/DownloadServiceInstall.cpp:143-158 | pass one accepts exactly when every entry is safe |
| ArchiveInstall.Installer.CheckLayout | controller_qt/src/core/DownloadServiceInstall.cpp:143-194 | accepts exactly when all is safe under a single top-level name that has the sentinel |
| ArchiveInstall.Installer.ExtractAll | controller_qt/src/core/DownloadServiceInstall.cpp:196-219 | pass two succeeds exactly when every file entry can be read and written where it belongs, and then yields the archive's files |
| ArchiveInstall.Installer.MoveItem | controller_qt/src/core/DownloadServiceInstall.cpp:221-236 | a file in the place of the item directory stays; a directory there is gone, and the files are in its place exactly when the move can happen |
| ArchiveInstall.Installer.InstallArchive | controller_qt/src/core/DownloadServiceInstall.cpp:73-255 | succeeds exactly when all stages do; the exact tree on success and on every failure, unchanged exactly when no item directory that holds something was cleared; which failures get which code |
| ArchiveInstall.FailedInstallKeepsIff | controller_qt/src/core/DownloadServiceInstall.cpp:221-236 | a failed install leaves the tree as it was exactly when no ready item has a directory that holds something |
| ArchiveInstall.ReadyButFailed | controller_qt/src/core/DownloadServiceInstall.cpp:221-236 | when everything but the move succeeds, the old item directory is gone, or was a file or held nothing |
| ArchiveTree.ExtractedIsLast | controller_qt/src/core/DownloadServiceInstall.cpp:201-219 | a path is extracted exactly when a file entry cleans to it, with the data of the last one |
| ArchiveTree.ExtractedBelowItem | controller_qt/src/core/DownloadServiceInstall.cpp:160-176 | every extracted path starts with the item name and has only ordinary components |
| ArchiveTree.OutsideUntouched | controller_qt/src/core/DownloadServiceInstall.cpp:221-236 | nothing outside the item directory changes |
| ArchiveTree.InsideReplaced | controller_qt/src/core/DownloadServiceInstall.cpp:221-236 | inside it exactly the archive's files remain, each with its last data |
| ArchiveTree.InstallKeepsTree | controller_qt/src/core/DownloadServiceInstall.cpp:207-236 | no file ever ends up inside another file |
| ArchiveTree.ExtractedIsTree | controller_qt/src/core/DownloadServiceInstall.cpp:207-219 | neither during extraction |
| ArchiveTree.AcceptanceIgnoresDirs | controller_qt/src/core/DownloadServiceInstall.cpp:180-184 | flagging entries as directories does not change acceptance |
| ArchiveTree.SentinelInstalledIff | controller_qt/src/core/DownloadServiceInstall.cpp:174-203 | the installed item has its sentinel file exactly when a file entry is it |
| ArchiveTree.SoleFileAcceptedIff | controller_qt/src/core/DownloadServiceInstall.cpp:178-194 | an archive of one file is acceptable exactly when the file is meta.mko for a voice pack, or named after the item with .model3.json for a model |
| ArchiveTree.InstallNeeds | controller_qt/src/core/DownloadServiceInstall.cpp:73-236 | an installed archive has at least one file, all its paths are safe and all its files decompress, and no file is in the way |
| ArchiveTree.OnlyDirectories | controller_qt/src/core/DownloadServiceInstall.cpp:201-236 | an accepted archive of directories extracts nothing, cannot be moved, and leaves the tree without the old item directory |
| ArchiveTree.PackReady | controller_qt/src/core/DownloadServiceInstall.cpp:143-219 | every item with a plain name has an archive that passes all stages |
| ArchiveTree.PackInstalls | controller_qt/src/core/DownloadServiceInstall.cpp:221-236 | and installs into an empty tree |
| ArchiveTree.OldItemLost | controller_qt/src/core/DownloadServiceInstall.cpp:221-236 | with no fault in the world, an accepted archive destroys the installed item and fails |
| MipChain.GenerateMipmaps | renderer/src/LAppTextureManager.cpp:225-300 | every barrier and blit is legal when it is recorded, with the true level extents, and at the end every level is filled and shader-readable |
| MipChain.SingleTexelIff | renderer/src/LAppTextureManager.cpp:160-161 | with the chosen level count, a level is 1x1 exactly from the last one on |
| MipChain.NextLevelSize | renderer/src/LAppTextureManager.cpp:262-286 | halving and stopping at one gives max(1, floor(size / 2^i)) |
| MipChain.FloorLog2 | renderer/src/LAppTextureManager.cpp:161-161 | the level count is the exact binary logarithm |
| TextureTables.EveryRun | renderer/src/LAppTextureManager.cpp:101-201 | over every run with fewer creations than ids: lists aligned, names and ids unique, no image leaked or destroyed twice |
| TextureTables.LookupIsOwnImage | renderer/src/LAppTextureManager.cpp:304-316 | a live id gives the image made for that file |
| TextureTables.RunPaired | renderer/src/LAppTextureManager.cpp:101-201 | over any run, also past the wrap of the counter: lists aligned, each row with the image of its file and its full chain of levels, no file loaded twice |
| TextureTables.LookupStable | renderer/src/LAppTextureManager.cpp:304-378 | over any run that does not release it, an id keeps its image, whatever else is created or released |
| TextureTables.LookupStep | renderer/src/LAppTextureManager.cpp:304-378 | with unique ids, the step that releases a texture makes its id give nothing, and no other step does |
| TextureTables.ReleasedStaysGone | renderer/src/LAppTextureManager.cpp:188-195 | an id that gives nothing stays so over any run before the counter wraps |
| TextureTables.UniqueAfterCreateIff | renderer/src/LAppTextureManager.cpp:188-195 | a creation keeps ids unique exactly when the next counter value is not in use |
| TextureTables.SharedIdReachable | renderer/src/LAppTextureManager.cpp:188-195 | a run leads to two live textures with one id |
| TextureTables.TextureManager.CreateTextureFromPngFile | renderer/src/LAppTextureManager.cpp:101-201 | the cached entry, nothing for an unreadable file, or a new row in both lists |
| TextureTables.TextureManager.GetTexture | renderer/src/LAppTextureManager.cpp:304-316 | the image of the first row with the id |
| TextureTables.TextureManager.ReleaseTextures | renderer/src/LAppTextureManager.cpp:319-336 | every image is destroyed once and both lists are emptied |
| TextureTables.TextureManager.ReleaseTextureById | renderer/src/LAppTextureManager.cpp:338-357 | the row with the id leaves both lists |
| TextureTables.TextureManager.ReleaseTextureByName | renderer/src/LAppTextureManager.cpp:359-378 | the row with the name leaves both lists |
| ProgressThrottle.MotionProgressThrottle.Poll | renderer/src/MotionProgressThrottle.hpp:33-51 | when a snapshot is due and where the window stands afterwards |
| ProgressThrottle.SnapshotsAreApart | renderer/src/MotionProgressThrottle.hpp:8-14 | on a monotone clock any two snapshots are at least one interval apart |
| ProgressThrottle.SnapshotAfterIdle | renderer/src/MotionProgressThrottle.hpp:27-32 | a snapshot comes at least one interval after the motion became active again |
| ProgressThrottle.CadenceBothSides | renderer/src/MotionProgressThrottle.hpp:27-51 | an active stretch of length T polled at gaps of at most d gives k snapshots with k * interval <= T < (k + 1) * (interval + d) |
| LipSync.Parse | renderer/src/LAppModel.cpp:972-1009 | the position-based loop yields the points of the lines, in order |
| LipSync.ParsePoint | renderer/src/LAppModel.cpp:979-1004 | one line: carriage return, separator, number, letter |
| LipSync.CueLine | renderer/src/LAppModel.cpp:979-1004 | a cue of time, separator and letter gives the point at that time with the opening of that letter, one for each of A to H and closed for all others |
| LipSync.PointsAreCollected | renderer/src/LAppModel.cpp:972-1009 | the points of a file are those of its lines, in the order of the lines |
| LipSync.SearchBrackets | renderer/src/LAppModel.cpp:451-459 | sorted or not, the search finds a bracketing pair and the value lies between its two neighbours |
| LipSync.LoadedValueInRange | renderer/src/LAppModel.cpp:442-460 | for every file and every time the value is in [0, 1] |
| LipSync.InterpolatesWhenIncreasing | renderer/src/LAppModel.cpp:446-459 | with strictly increasing times it is the piecewise-linear interpolant |
| LipSync.Interpolate | renderer/src/LAppModel.cpp:446-461 | the search loop computes that value |
| LipSync.Player.StartLipSyncFromFile | renderer/src/LAppModel.cpp:955-1015 | the data of the file, elapsed time zero, active exactly when there is data |
| LipSync.Player.StopLipSyncData | renderer/src/LAppModel.cpp:1017-1021 | cleared and inactive |
| LipSync.Player.Update | renderer/src/LAppModel.cpp:438-465 | time advances only while active, and the mouth follows the data |

## Left out

- HitSession.Session.SetEventPublisher: the theorems about host runs are about one bus; what a session brings along from an earlier bus is a fixed number in each of them, and a return to a bus with later notes of the same session is not followed.
- EventBus.EventBus.Publish: does not model the timestamp stamp, several buses sharing the thread's depth counter, listeners that write event fields other than the cancelled flag, or sessions destroyed during a dispatch.
- HitSession.Session.MountedOnEvent: does not model the dialogue sink, the scheduler pause and the renderer command; voice packs and the clock are arbitrary functions of the history.
- InstanceRoster.InstanceSession.Start: does not model status, token and failure signals; whether a launch works is a parameter.
- InstanceRoster.InstanceSession.Stop: does not model status, connected and manual-stop flags, timers, kill timing and the retry ladder; a renderer's death is a free step of the world.
- InstanceRoster.InstanceManager.CreateInstanceScoped: the save of the config and that of the roster share one success flag.
- InstanceRoster.InstanceManager.OnProcessStopFinished: assumes that slots connected to the manager's signals do not call back into it.
- InstanceRoster.InstanceManager.LoadFromDisk: does not model a swap of the database, which destroys sessions outright.
- RosterStore: config rows that a removed session writes after its deletion are not modelled; store failures are whole-operation booleans.
- ModelSwitch: verdicts carry no identity in the protocol, so none is modelled; slots connected to its signals do not call back into it.
- Downloads: jobs with the same destination name are given separate part files; listeners do not call back into the service; bytes lost by buffered writes at flush time count as not written; teardown is not modelled.
- ArchivePaths.AcceptedIff: models separator "/" only, not the Windows treatment of backslashes.
- ArchiveInstall.Installer.MoveItem: does not model a partial removal of the old directory or case-insensitive file systems.
- TextureTables.EveryRun: id uniqueness holds for fewer creations than ids; past that it is false in general, and the exact condition is TextureTables.UniqueAfterCreateIff.
- MipChain.GenerateMipmaps: access masks and pipeline stages, array layers and integer widths of extents are not modelled; the initial transition of all levels to the transfer-destination layout is assumed.
- ProgressThrottle.CadenceBothSides: the interval is not negative.
- LipSync.ParsePoint: number parsing is an unknown function without NaN; floats are reals.
- The OpenGL variant of texture creation, whose ids come from the backend.
- QML, tray, themes, logging, JSON payloads, SQL text, network and GPU calls.
- Windows, positions, volume and other setters, the scheduler, the rule engine and the plugin registry.
