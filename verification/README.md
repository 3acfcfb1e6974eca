# Relay and client protocol proofs

This project models the parts of the relay and its web client whose correctness rests on
interleavings, counters and loops, and proves what they promise. It covers three things.

**The client's journal projections.** `AutopilotController` and `AgentActivityController` keep
per-session projections of a server journal while list snapshots, `getSession` reads, socket
events, local mutations, removals and re-additions race. For each controller there are three
layers: a *cell* (`AutopilotCell`, `AgentActivityCell`), one session's share of the state and the
effect of each operation on it; *runs* (`AutopilotRuns`, `AgentActivityRuns`), every interleaving
of those operations, each async method cut at its awaits; and the *class* (`AutopilotClient`,
`AgentActivityClient`), the imperative controller with the source's maps and sets, whose methods
are proved to act on every session id as the cell says. The theorems are about runs of any
length, and `AutopilotJournal` compares the projection with the journal it projects. The theorem
modules say what cannot happen; `AutopilotEffects` and `AgentActivityEffects` say, in the session's
own counters and fields, exactly when each operation takes effect in a reachable state and what it
then stores.

**The relay's fences.** `PendingInteractions` is the durable request rows and every step that
touches them, `InteractionEffects` the outcome each of these steps records, and `InteractionRelay`
the store and closures as they run. `RelayDispatch` interleaves the awaits of an automatic turn
start, an executor resume and the executor policy guard with those steps and with arbitrary changes
of everything else they read; `DispatchClosures` is their imperative form, segment by segment and as
whole functions. `CapacityRecovery` is the timer and task life cycle of capacity recovery and its
shutdown drain, as steps and as a class.

**Data cores.** The tool-efficiency validator and the register it feeds, the paragraph splitter,
the toast dedupe window, file-change aggregation, the Org Plan position printer, its parsers and
the checkpoint contract, and the quiz contract.

## What the code does not promise

Some natural claims fail, and the project proves exactly where.

- Acknowledged attention is not safe while its guidance is being delivered: a dismissal or a server
  clear ends it exactly when it is not acknowledged (`UnacknowledgedEnds`), and delivery suspends
  that state (`DismissedDuringDelivery`, `RestartedDuringDelivery`, `NeverHeldAgain`). What breaks
  into a delivery is `UnderWayExactly`; undisturbed, it restores or answers the request
  (`UndisturbedDelivery`). Automation is held all the while the request is open
  (`AttentionHoldsAutomation`).
- A generic reply in flight, an armed checkpoint deadline, and a checkpoint that could not be
  recorded resolve whatever request has their id by then (`ReplyEndsReusedId`,
  `DeadlineEndsReusedId`, `UnrecordedEndsReusedId`). These, the resolver and the removal of the
  session are the only ways a held request ends (`EndsExactly`); `ClosesExactly` lists the ways of any
  open attention request.
- `executorController.resume` asks for admission once, before its await (`ResumeOutlivesAdmission`);
  the executor policy guard behind it asks again.
- An unsequenced read may put an older Autopilot snapshot back after a toggle, even while its floor
  stands (`UnsequencedReadOverwrites`, `UnsequencedHydrateOverwrites`); `UnsequencedLandsExactly` says
  when one lands. A gap or an unsequenced read keeps the projection in agreement with the journal
  only under the conditions of `GapAgreesIff` and `UnsequencedReadAgreesIff`.
- Resolving one of two open attention requests clears the other from the projection
  (`TwoOpenRequestsDisagree`); `AttentionAgreesIff` is the condition on each event.
- More than one activity socket of a session can be open (`TimerReplacesOpenSocket`), by the steps of
  `StraySocketExactly` and no others. A rejected read
  of an earlier incarnation marks the newer snapshot stale (`LateReadOnlyMarksStale`), and
  bootstrapping after dispose still stores list snapshots (`DisposedStillSeeds`).
- Enumerated fields of an efficiency snapshot may come out as arrays (`TypedExactlyWhenStrings`,
  `ArrayCoverageAccepted`).

## Assumptions

- Journal sequences are naturals; `Number.isInteger` alone would let the Autopilot controller take
  negative ones.
- `refreshActivity` never throws synchronously, and publish callbacks neither throw nor call back
  into the controller.
- `JSON.stringify` texts are equal exactly when the values are, and parsing a printed value gives it
  back. `Date.parse` is a parameter, `marked` a given token list.
- Promises settle one at a time; between two awaits a function runs without interruption.
- The database does what its statements say; the rows of a session are a map from request id, as the
  primary key makes them.

## Model

| member | source | states |
|---|---|---|
| AutopilotTheorems.MutationLock | src/client/features/autopilot/autopilot-controller.ts:197-274 | In every reachable live state a session is pending if and only if exactly one toggle or resolve for its current version is in flight; with nothing in flight nothing is pending |
| AutopilotTheorems.RevisionStamp | src/client/features/autopilot/autopilot-controller.ts:126-131 | Within one incarnation the revision never falls, and any change of cursor, snapshot or attention over a run raised it |
| AutopilotTheorems.LateToggle | src/client/features/autopilot/autopilot-controller.ts:207-231 | A toggle result or error that arrives late takes effect exactly when nothing else was accepted since it was sent; its floor is then the cursor at send time, a raced one only unlocks |
| AutopilotTheorems.NoStaleOverwrite | src/client/features/autopilot/autopilot-controller.ts:106-119 | Once a toggle response is applied, no sequenced list item, read or event at or below its floor changes the session again in that incarnation, even after the floor is cleared |
| AutopilotTheorems.FloorDropsUnsequenced | src/client/features/autopilot/autopilot-controller.ts:106-119 | While a floor stands, unsequenced list items and authoritative reads change nothing |
| AutopilotTheorems.HydrateAcrossMutation | src/client/features/autopilot/autopilot-controller.ts:164-179 | Any hydrate in flight when a toggle or resolve settles is dropped when it answers, whatever happens in between |
| AutopilotTheorems.UnsequencedLandsExactly | src/client/features/autopilot/autopilot-controller.ts:106-119 | Exactly when an unsequenced read changes a session: a shared read iff it is wanted, unlocked and has no floor; a list item iff also nothing is stored and the cursor is 0; a hydrate iff nothing overtook it since it was sent, whatever the floor |
| AutopilotTheorems.UnsequencedReadOverwrites | src/client/features/autopilot/autopilot-controller.ts:347-356 | A run where, once the floor is cleared, an unsequenced authoritative read restores the snapshot from before the toggle |
| AutopilotTheorems.UnsequencedHydrateOverwrites | src/client/features/autopilot/autopilot-controller.ts:188-190 | A run where, while the floor stands, an unsequenced response to a hydrate sent after the toggle settled restores it too |
| AutopilotTheorems.UnsequencedListFillsEmpty | src/client/features/autopilot/autopilot-controller.ts:103-111 | A list without sequences changes nothing over a stored snapshot or a known cursor |
| AutopilotTheorems.LockedSessionRefuses | src/client/features/autopilot/autopilot-controller.ts:108-111 | While a toggle or resolve is in flight no list and no shared read, sequenced or not, changes the session |
| AutopilotTheorems.SupersededHydrate | src/client/features/autopilot/autopilot-controller.ts:166-179 | A hydrate superseded by a later one changes nothing when it answers, whatever happens in between |
| AutopilotTheorems.IncarnationIsolation | src/client/features/autopilot/autopilot-controller.ts:276-291 | A hydrate, toggle or resolve started before a removal leaves every field of the session as it finds it when it settles, whatever the session became |
| AutopilotTheorems.OnlyWantedIsPublished | src/client/features/autopilot/autopilot-controller.ts:276-291 | Snapshot, attention, pending flag and both errors exist only for wanted sessions |
| AutopilotTheorems.DisposedForever | src/client/features/autopilot/autopilot-controller.ts:292-306 | After dispose every field of a session stays empty for good, except its version, its cursor and the count of hydrates, which no subscriber sees |
| AutopilotTheorems.StepSealed | src/client/features/autopilot/autopilot-controller.ts:106-115 | Every step of an incarnation keeps the cursor, or a standing floor, above what a toggle sealed |
| AutopilotRuns.StepInv | src/client/features/autopilot/autopilot-controller.ts:197-274 | The lock, the revision stamp, the mutation epochs and the captured versions are kept by every step of every interleaving |
| AutopilotEffects.EventLandsExactly | src/client/features/autopilot/autopilot-controller.ts:126-162 | In every reachable state an event is taken exactly when its session is wanted and it is past the cursor, a mutation in flight or not; it then moves the cursor to itself and the revision by one, shows what its type carries, and changes nothing else |
| AutopilotEffects.SharedReadLandsExactly | src/client/features/autopilot/autopilot-controller.ts:339-357 | Exactly when a sequenced shared read lands, in plain counters; it then shows what it carries and leaves no floor |
| AutopilotEffects.ListItemLandsExactly | src/client/features/autopilot/autopilot-controller.ts:96-119 | Exactly when a sequenced list item lands on a listed session, in plain counters, and what it then shows |
| AutopilotEffects.HydrateLandsExactly | src/client/features/autopilot/autopilot-controller.ts:171-191 | Exactly when a sequenced hydrate lands: nothing it captured changed and it is past the cursor; it shows what it carries and leaves the floor standing |
| AutopilotEffects.UnsequencedShows | src/client/features/autopilot/autopilot-controller.ts:181-191 | An unsequenced read that lands shows what it carries and leaves cursor and floor; a rejected hydrate changes nothing |
| AutopilotEffects.ListInTurn | src/client/features/autopilot/autopilot-controller.ts:96-119 | A list takes its items in turn: two lists one after the other do what their concatenation does |
| AutopilotEffects.ListedIsWanted | src/client/features/autopilot/autopilot-controller.ts:90-96 | After a bootstrap a live session is wanted exactly when the list has it |
| AutopilotEffects.RemovedIsEmpty | src/client/features/autopilot/autopilot-controller.ts:276-291 | A removed or unlisted session keeps nothing but a version one higher |
| AutopilotEffects.ToggleStartsExactly | src/client/features/autopilot/autopilot-controller.ts:197-206 | A toggle goes out exactly from a wanted session with no mutation in flight, and locks it under its version and revision, changing nothing it shows but its errors |
| AutopilotEffects.ResolveStartsExactly | src/client/features/autopilot/autopilot-controller.ts:234-252 | A resolve goes out exactly where attention is shown, no mutation is in flight and the guidance is short enough; long guidance shows its message |
| AutopilotEffects.ToggleSettlesExactly | src/client/features/autopilot/autopilot-controller.ts:207-231 | An answer that was not overtaken shows its snapshot, sets the floor to the cursor and clears the attention of a disabled coordinator, or shows its failure; every answer unlocks its own incarnation |
| AutopilotEffects.ResolveRepliesExactly | src/client/features/autopilot/autopilot-controller.ts:253-273 | A reply that was not overtaken goes on to a hydrate, still locked, or shows its failure; any other only unlocks |
| AutopilotEffects.ResolveHydratesExactly | src/client/features/autopilot/autopilot-controller.ts:259-273 | The hydrate of a resolve lands as any other, and the lock is then given back |
| AutopilotEffects.HydrateStartsExactly | src/client/features/autopilot/autopilot-controller.ts:164-170 | What a hydrate captures, and that it changes nothing but its epoch |
| AutopilotEffects.QuietHydrateLands | src/client/features/autopilot/autopilot-controller.ts:164-191 | A hydrate nothing happens to lands exactly when its sequence is past the cursor or, without one, the cursor is the expected one |
| AutopilotJournal.JournalRefinement | src/client/features/autopilot/autopilot-controller.ts:126-191 | With truthful sequenced reads and contiguous accepted events since the last sequenced snapshot, the stored snapshot is the fold of the journal up to the cursor; attention too when at most one request is open |
| AutopilotJournal.ReplaysChangeNothing | src/client/features/autopilot/autopilot-controller.ts:126-191 | An event at or below the cursor and a read below it change nothing, on any path |
| AutopilotJournal.GapAgreesIff | src/client/features/autopilot/autopilot-controller.ts:129-134 | An event accepted over a gap keeps the stored snapshot in agreement exactly when it carries a snapshot itself or the skipped events established no other |
| AutopilotJournal.UnsequencedReadAgreesIff | src/client/features/autopilot/autopilot-controller.ts:181-190 | An accepted unsequenced read, shared or of a hydrate, keeps the snapshot in agreement exactly when it has none or the one established at the cursor; an unsequenced list item is never accepted over a snapshot in agreement |
| AutopilotJournal.TwoOpenRequestsDisagree | src/client/features/autopilot/autopilot-controller.ts:152-160 | With two open requests, resolving one deletes whatever attention is stored: the projection shows none while the journal has one |
| AutopilotJournal.AttentionAgreesIff | src/client/features/autopilot/autopilot-controller.ts:129-160 | However many requests are open, and over any gap, an accepted event keeps the stored attention the oldest open one exactly under a condition on the journal alone |
| AutopilotJournal.NextEventKeepsAttention | src/client/features/autopilot/autopilot-controller.ts:134-160 | Without a gap that condition is: a required request finds none open or is the oldest; a listing starts with the oldest; a resolution leaves none open; any other event meets it |
| AutopilotJournal.StepAgrees | src/client/features/autopilot/autopilot-controller.ts:126-191 | One honest step keeps agreement with the journal whenever the step leaves the session in step |
| AutopilotClient.AutopilotController.Bootstrap | src/client/features/autopilot/autopilot-controller.ts:90-124 | The two loops remove unlisted sessions and judge every list item in order, for every session id at once, and publish |
| AutopilotClient.AutopilotController.BootstrapItem | src/client/features/autopilot/autopilot-controller.ts:96-119 | One list item is registered, and accepted by cursor, floor and pending set |
| AutopilotClient.AutopilotController.Observe | src/client/features/autopilot/autopilot-controller.ts:126-162 | An event moves cursor and revision and applies its body to its own session only; subscribers are up to date |
| AutopilotClient.AutopilotController.ApplyBody | src/client/features/autopilot/autopilot-controller.ts:134-160 | Each event type changes snapshot or attention as its cell function says |
| AutopilotClient.AutopilotController.HydrateStart | src/client/features/autopilot/autopilot-controller.ts:164-170 | What hydrate captures before its await, and the new hydrate epoch |
| AutopilotClient.AutopilotController.HydrateSettle | src/client/features/autopilot/autopilot-controller.ts:171-195 | A read is applied only through all five fences; a rejected one changes nothing |
| AutopilotClient.AutopilotController.ToggleStart | src/client/features/autopilot/autopilot-controller.ts:197-206 | A toggle is refused, or locks the session, counts itself and captures version and revision |
| AutopilotClient.AutopilotController.ToggleSettle | src/client/features/autopilot/autopilot-controller.ts:207-231 | The result or error lands only under the captured version and revision, and the lock is released either way |
| AutopilotClient.AutopilotController.ResolveStart | src/client/features/autopilot/autopilot-controller.ts:234-252 | A resolve is refused, rejected for long guidance, or locks the session |
| AutopilotClient.AutopilotController.ResolveReply | src/client/features/autopilot/autopilot-controller.ts:253-273 | An unraced success goes on to a hydrate, an unraced failure is shown, and the lock is released when it is done |
| AutopilotClient.AutopilotController.Remove | src/client/features/autopilot/autopilot-controller.ts:276-291 | The version rises, everything stored for the id is forgotten, and other ids are untouched |
| AutopilotClient.AutopilotController.Dispose | src/client/features/autopilot/autopilot-controller.ts:292-306 | Every session is emptied and the empty projection published |
| AutopilotClient.AutopilotController.ApplyAuthoritative | src/client/features/autopilot/autopilot-controller.ts:339-357 | A shared read is refused below cursor or floor or while pending, else advances and applies |
| AutopilotClient.AutopilotController.ApplySnapshot | src/client/features/autopilot/autopilot-controller.ts:310-325 | A valid snapshot replaces the stored one and its recovery notice |
| AutopilotClient.AutopilotController.ApplyAttention | src/client/features/autopilot/autopilot-controller.ts:326-337 | A direct request, an envelope, or the first envelope of a list; an empty list clears |
| AutopilotClient.AutopilotController.Publish | src/client/features/autopilot/autopilot-controller.ts:363-370 | Subscribers receive the current projection, recovery notices over errors |
| AgentActivityTheorems.ForwardingDiscipline | src/client/features/agent-activity/agent-activity-controller.ts:120-163 | Within an incarnation the sequences passed to onEvent strictly increase, and each sequence up to the cursor was forwarded, lies at or below an accepted authoritative read, or was skipped |
| AgentActivityTheorems.CursorMovesHonestly | src/client/features/agent-activity/agent-activity-controller.ts:120-163 | Within an incarnation the cursor rises only to an event just forwarded or to an authoritative read just accepted |
| AgentActivityTheorems.SkipLeavesResync | src/client/features/agent-activity/agent-activity-controller.ts:131-134 | A step that skips sequences leaves a resync of the same incarnation registered and live |
| AgentActivityTheorems.EfficiencyIsMaxRegister | src/client/features/agent-activity/agent-activity-controller.ts:237-242 | The stored efficiency snapshot is the earliest delivered among the accepted ones of greatest revision, and absent only when none was accepted |
| AgentActivityTheorems.StoredEfficiencyIsParsed | src/client/features/agent-activity/agent-activity-controller.ts:237-242 | What is stored is a fixed point of the parser, with at most 64 distinct groups, at most 1024 calls and completeness rows summing to the calls |
| AgentActivityTheorems.SingleFlightResync | src/client/features/agent-activity/agent-activity-controller.ts:168-189 | At most one live resync task belongs to the current incarnation, and it is the registered one |
| AgentActivityTheorems.RegistrationIsLive | src/client/features/agent-activity/agent-activity-controller.ts:168-189 | A registration always names a live task of the current incarnation |
| AgentActivityTheorems.FinishClearsOwnOnly | src/client/features/agent-activity/agent-activity-controller.ts:182-184 | A task of an earlier incarnation finishes without touching the newer registration |
| AgentActivityTheorems.SocketOwnership | src/client/features/agent-activity/agent-activity-controller.ts:197-229 | A registered socket belongs to a wanted, non-selected session and was opened under its current version; reconnect attempts never exceed the delay list |
| AgentActivityTheorems.MessagesFromRegisteredSocket | src/client/features/agent-activity/agent-activity-controller.ts:204-212 | A message changes something only when it comes from the registered socket of a wanted session |
| AgentActivityTheorems.TimerReplacesOpenSocket | src/client/features/agent-activity/agent-activity-controller.ts:221-227 | A run after which two sockets of one session are open: a reconnect timer replaces the one sync reopened |
| AgentActivityTheorems.StraySocketExactly | src/client/features/agent-activity/agent-activity-controller.ts:197-229 | Exactly which steps leave an open socket besides the registered one: a reconnect timer that reopens while a socket is open, or a handled close of one socket while another is open |
| AgentActivityTheorems.LateReadOnlyMarksStale | src/client/features/agent-activity/agent-activity-controller.ts:144-166 | A read sent in an earlier incarnation changes nothing, except that a rejected one marks the newer snapshot stale |
| AgentActivityTheorems.LateTaskReadOnlyMarksStale | src/client/features/agent-activity/agent-activity-controller.ts:176-181 | The same of a read sent by a resync task of an earlier incarnation |
| AgentActivityTheorems.UnsequencedReadNeverOverwrites | src/client/features/agent-activity/agent-activity-controller.ts:156-163 | If an event was accepted since an unsequenced read was sent, the read changes nothing when it answers, whatever happens in between |
| AgentActivityTheorems.DisposedStillSeeds | src/client/features/agent-activity/agent-activity-controller.ts:68-80 | After dispose a bootstrap still stores a list snapshot, exactly when none is stored and some item is valid |
| AgentActivityRuns.StepInv | src/client/features/agent-activity/agent-activity-controller.ts:85-249 | Socket, timer, task and forwarding-log invariants are kept by every step of every interleaving |
| AgentActivityEffects.SnapshotIsLatestShown | src/client/features/agent-activity/agent-activity-controller.ts:230-236 | The snapshot on show is the last one accepted in the incarnation, from an event, a read or a list, stale if a gap, a resync, a close or a rejected read doubted it since |
| AgentActivityEffects.EventLandsExactly | src/client/features/agent-activity/agent-activity-controller.ts:120-140 | An event is taken exactly by a wanted session it names, past its cursor; a valid activity is then the one stored, an efficiency delivery is stored if newer, and over a gap a resync is started or joined |
| AgentActivityEffects.ReadLandsExactly | src/client/features/agent-activity/agent-activity-controller.ts:141-167 | Exactly when a read of a sync or of a resync task lands, and what it then stores; a rejected one only marks stale |
| AgentActivityEffects.CallbacksExactly | src/client/features/agent-activity/agent-activity-controller.ts:135-163 | Exactly which events onEvent and which reads onAuthoritativeSnapshot receive |
| AgentActivityEffects.HydrateCaptures | src/client/features/agent-activity/agent-activity-controller.ts:141-144 | A hydrate captures version and cursor and changes nothing |
| AgentActivityEffects.SeedShowsFirst | src/client/features/agent-activity/agent-activity-controller.ts:68-79 | A list shows its first valid snapshot, and only where none is shown |
| AgentActivityEffects.BootstrapIsSeedAndSync | src/client/features/agent-activity/agent-activity-controller.ts:68-84 | A bootstrap is that followed by a sync, the cursor unmoved |
| AgentActivityEffects.SyncConnects | src/client/features/agent-activity/agent-activity-controller.ts:85-100 | A wanted session keeps what it shows, gets a version and a read, and has a socket exactly if it is not selected, its own or a new one |
| AgentActivityEffects.SyncForgets | src/client/features/agent-activity/agent-activity-controller.ts:85-100 | A session no longer wanted is forgotten and its socket closed; one never known stays unknown |
| AgentActivityEffects.RemoveForgets | src/client/features/agent-activity/agent-activity-controller.ts:104-119 | Removal forgets everything but a version one higher, stops the registered timeout and closes the registered socket |
| AgentActivityEffects.MessageLandsExactly | src/client/features/agent-activity/agent-activity-controller.ts:204-212 | A message counts exactly from the registered socket of a wanted session under its version, resets the attempts and then acts as a resync request or an event |
| AgentActivityEffects.ResyncStartsExactly | src/client/features/agent-activity/agent-activity-controller.ts:168-176 | A resync starts exactly where none is registered: a new task is, and the snapshot goes stale |
| AgentActivityEffects.RefreshGoesOnExactly | src/client/features/agent-activity/agent-activity-controller.ts:177-184 | A refreshed task goes on to a read exactly in its own incarnation; any other end clears only its own registration |
| AgentActivityEffects.TaskEnds | src/client/features/agent-activity/agent-activity-controller.ts:180-189 | A task that has read ends by clearing its own registration, whatever came of the read |
| AgentActivityEffects.CloseLandsExactly | src/client/features/agent-activity/agent-activity-controller.ts:213-228 | A close counts exactly for a wanted, non-selected session under its version: it marks stale, drops the socket and schedules a reconnect exactly while delays are left |
| AgentActivityEffects.TimerReopensExactly | src/client/features/agent-activity/agent-activity-controller.ts:221-227 | A timeout reopens exactly for a wanted, non-selected session under its version |
| AgentActivityEffects.StaleExactly | src/client/features/agent-activity/agent-activity-controller.ts:243-249 | Exactly which steps turn the fresh snapshot on show into a stale one |
| AgentActivityClient.AgentActivityController.Bootstrap | src/client/features/agent-activity/agent-activity-controller.ts:68-84 | List snapshots fill empty projections in list order, then sync runs; opened sockets and sent reads are exactly those |
| AgentActivityClient.AgentActivityController.Sync | src/client/features/agent-activity/agent-activity-controller.ts:85-100 | For every id: unwanted sessions are removed, selected ones lose their socket, wanted ones get a version, a read and, where missing, a socket of their own |
| AgentActivityClient.AgentActivityController.Select | src/client/features/agent-activity/agent-activity-controller.ts:101-103 | Selecting is a sync of the sessions already wanted, with the sockets it opens and the reads it sends |
| AgentActivityClient.AgentActivityController.Remove | src/client/features/agent-activity/agent-activity-controller.ts:104-119 | Everything of the id is forgotten and its version raised; other ids untouched |
| AgentActivityClient.AgentActivityController.Observe | src/client/features/agent-activity/agent-activity-controller.ts:120-140 | An event is refused, or moves the cursor, starts or joins a resync over a gap, is applied and is passed to onEvent once |
| AgentActivityClient.AgentActivityController.HydrateSettle | src/client/features/agent-activity/agent-activity-controller.ts:141-167 | A sequenced read at or above the cursor, or an unsequenced one when nothing moved, is applied and forwarded as authoritative; a rejected one marks stale |
| AgentActivityClient.AgentActivityController.Resync | src/client/features/agent-activity/agent-activity-controller.ts:168-189 | A registered resync is joined; otherwise the snapshot goes stale and a new task is registered |
| AgentActivityClient.AgentActivityController.RefreshSucceeded | src/client/features/agent-activity/agent-activity-controller.ts:177-180 | The task goes on to a hydrate only in its own incarnation |
| AgentActivityClient.AgentActivityController.FinishTask | src/client/features/agent-activity/agent-activity-controller.ts:182-184 | A finishing task clears the registration only if it is its own |
| AgentActivityClient.AgentActivityController.Receive | src/client/features/agent-activity/agent-activity-controller.ts:204-212 | A message is consumed only from the registered socket under the socket's version, resets the reconnect attempts, and its event goes to onEvent if accepted |
| AgentActivityClient.AgentActivityController.Close | src/client/features/agent-activity/agent-activity-controller.ts:213-228 | A close drops the registration, marks stale and schedules at most one reconnect per configured delay |
| AgentActivityClient.AgentActivityController.TimerFires | src/client/features/agent-activity/agent-activity-controller.ts:223-226 | A fired timer reopens only for the version it was set under and a session not selected |
| AgentActivityClient.AgentActivityController.ApplyEfficiency | src/client/features/agent-activity/agent-activity-controller.ts:237-242 | A delivery is stored only when parsed and of greater revision |
| AgentActivityClient.AgentActivityController.Dispose | src/client/features/agent-activity/agent-activity-controller.ts:190-193 | Every wanted session is removed and the controller disposed |
| PendingInteractions.AttentionHolds | src/server/composition.ts:924-941 | Acknowledged attention stays acknowledged, open and blocking at every moment of a run exactly when no step of the run ends it: clears, dismissals, refused or failed resolver calls, replies and deadlines under other ids, shutdowns and restarts pass over it |
| PendingInteractions.OpenUntilClosed | src/server/composition.ts:924-941 | An attention request is open and blocking at every moment of a run, deliveries included, exactly when no step of the run closes it |
| PendingInteractions.ClosesExactly | src/server/composition.ts:924-941 | Exactly which single steps close an open attention request, acknowledged or not |
| PendingInteractions.OnlyItsResolverEnds | src/server/composition.ts:924-941 | Where ids are not reused, only an effective call of its own resolver or session removal ends a hold |
| PendingInteractions.EndsExactly | src/server/composition.ts:924-941 | Exactly which single steps end acknowledged attention: an accepted delivery of its resolver, session removal, a reply in flight or a checkpoint deadline armed under its id, a checkpoint under its id that could not be recorded |
| PendingInteractions.AcceptedIsHeld | src/server/composition.ts:1186-1201 | Accepting attention as acknowledged holds it if and only if no attention row of that id exists that is past acknowledgement |
| PendingInteractions.UnacknowledgedEnds | src/server/composition.ts:1291-1306 | A dismissal or a server clear ends open attention if and only if it is not acknowledged; shutdown never ends it |
| PendingInteractions.BlockingAfterDismissal | src/server/composition.ts:343-351 | After a dismissal exactly held attention and the quizzes of the active turn still block |
| PendingInteractions.OpenAfterShutdown | src/server/composition.ts:2836-2849 | After shutdown exactly the open attention and checkpoints are still open, unchanged |
| PendingInteractions.UnderWayExactly | src/server/features/org-plan-attention/application/resolve.ts:125-151 | A guidance delivery is under way until exactly one of these: its guidance settles, a dismissal, a clear of its id, a restart, session removal, or a step that resolves its id unseen |
| PendingInteractions.UndisturbedDelivery | src/server/features/org-plan-attention/application/resolve.ts:125-151 | A guidance delivery that no such step disturbs ends as its guidance did: acknowledged again, or answered for good under its key |
| PendingInteractions.NeverHeldAgain | src/server/features/org-plan-attention/application/resolve.ts:153-170 | After a restart during a guidance delivery the request is never acknowledged again, whatever is retried |
| PendingInteractions.DismissedDuringDelivery | src/server/composition.ts:924-941 | During a guidance delivery a writer exit does end acknowledged attention, and the delivery then settles nothing |
| PendingInteractions.RestartedDuringDelivery | src/server/features/org-plan-attention/application/resolve.ts:153-170 | After a restart during a guidance delivery, a retry without a writer leaves the request merely active |
| PendingInteractions.ReplyEndsReusedId | src/server/features/sessions/respond-interaction/endpoint.ts:54-74 | A generic reply in flight resolves whatever request has its id when it is delivered, acknowledged attention included |
| PendingInteractions.DeadlineEndsReusedId | src/server/features/org-plan-checkpoint/application/coordinate.ts:276-293 | A checkpoint deadline resolves whatever request has its id when it fires |
| PendingInteractions.UnrecordedEndsReusedId | src/server/features/org-plan-checkpoint/application/coordinate.ts:185-194 | A checkpoint the coordinator fails to record resolves acknowledged attention of its id at once |
| PendingInteractions.SettledIsFinal | src/server/platform/persistence/sqlite-pending-interaction-store.ts:36-39 | A settled attention request is never reopened, overwritten or settled again while its session exists |
| PendingInteractions.FirstKeyWins | src/server/platform/persistence/sqlite-pending-interaction-store.ts:91-115 | The first operation key to claim an attention request keeps it; every other key changes nothing for good |
| PendingInteractions.SettledByItsKey | src/server/platform/persistence/sqlite-pending-interaction-store.ts:143-164 | Only the resolver, under the claiming key, moves a request to resolved or failed state |
| InteractionEffects.WriterDeliveryExactly | src/server/features/org-plan-attention/application/resolve.ts:153-190 | A granted call on active attention: answered and settled exactly when capable, available, not rejected, with a writer and written; failed and lost exactly when the writer had cleared it; otherwise open, claimed, in the state given |
| InteractionEffects.GuidanceDeliveryExactly | src/server/features/org-plan-attention/application/resolve.ts:124-151 | A granted call on acknowledged attention: answered at once exactly without guidance to deliver, in delivery exactly when it was sent, acknowledged again when replacement or channel is refused |
| InteractionEffects.RefusedCallChangesNothing | src/server/features/org-plan-attention/application/resolve.ts:81-123 | A call that is replayed, joined, unparsable, without an open attention request or under another key changes nothing |
| InteractionEffects.FinishedRowIsOnlyClaimed | src/server/features/org-plan-attention/application/resolve.ts:153-157 | An open row in a finished state is claimed and no more |
| InteractionEffects.GuidanceSettlesExactly | src/server/features/org-plan-attention/application/resolve.ts:143-151 | The end of a guidance await answers and settles the row in delivery for its key, or acknowledges it again; any other row stays |
| InteractionEffects.AcceptStoresExactly | src/server/composition.ts:1186-1201 | The row an accepted request is stored as, and when an earlier attention row stays instead |
| InteractionEffects.CheckpointAcceptedExactly | src/server/features/org-plan-checkpoint/application/coordinate.ts:204-209 | The row an accepted checkpoint is stored as, and its armed deadline |
| InteractionEffects.UnrecordedFailsExactly | src/server/features/org-plan-checkpoint/application/coordinate.ts:185-194 | The failed row an unrecorded checkpoint leaves, or the attention it fails instead |
| InteractionEffects.ClearEndsExactly | src/server/composition.ts:1289-1306 | A clear fails unacknowledged attention, dismisses approvals and checkpoints, and leaves quizzes and acknowledged attention |
| InteractionEffects.DismissalEndsExactly | src/server/composition.ts:924-941 | A dismissal gives its outcome to every open row but quizzes and acknowledged attention |
| InteractionEffects.ShutdownEndsExactly | src/server/composition.ts:2832-2849 | A shutdown dismisses open approvals and quizzes, disarms every deadline and leaves the rest |
| InteractionEffects.PendingCheckpointsFailExactly | src/server/features/org-plan-checkpoint/application/coordinate.ts:239-245 | Exactly the open checkpoints are failed and disarmed |
| InteractionEffects.CheckpointResponseExactly | src/server/features/org-plan-checkpoint/application/coordinate.ts:222-237 | A written response answers an open checkpoint, an unwritten one fails it, and either disarms it |
| InteractionEffects.DeadlineFailsExactly | src/server/features/org-plan-checkpoint/application/coordinate.ts:276-293 | An armed deadline fails what is open under its id, once |
| InteractionEffects.ReplyStartsExactly | src/server/composition.ts:2687-2697 | A reply is under way exactly for an open request other than attention and a valid value |
| InteractionEffects.ReplySettlesExactly | src/server/features/sessions/respond-interaction/endpoint.ts:54-74 | A delivered reply records its outcome, a cleared one a dismissal, an undelivered one nothing |
| InteractionEffects.BlocksExactly | src/server/composition.ts:343-351 | Every open row blocks, except the quizzes of a turn that is not active |
| InteractionEffects.EndsWithFirstVerdict | src/server/features/org-plan-attention/application/resolve.ts:105-219 | Over any run an attention request ends with the outcome of the first step that decides it, and stays open until then; what each step decides is spelled out by kind, state and ports |
| InteractionRelay.SessionInteractions.Add | src/server/platform/persistence/sqlite-pending-interaction-store.ts:27-51 | Insert, or overwrite any row but an attention row |
| InteractionRelay.SessionInteractions.Resolve | src/server/platform/persistence/sqlite-pending-interaction-store.ts:77-90 | An open row is resolved once, and the result says whether it was |
| InteractionRelay.SessionInteractions.ClaimOperation | src/server/platform/persistence/sqlite-pending-interaction-store.ts:91-115 | Which of the five answers a claim gets, and when the key is stored |
| InteractionRelay.SessionInteractions.BeginDelivery | src/server/platform/persistence/sqlite-pending-interaction-store.ts:117-126 | Delivery begins only for the claiming key of an open row |
| InteractionRelay.SessionInteractions.RetryDelivery | src/server/platform/persistence/sqlite-pending-interaction-store.ts:127-141 | A row in delivery goes back to the named state, for its key only |
| InteractionRelay.SessionInteractions.SettleOperation | src/server/platform/persistence/sqlite-pending-interaction-store.ts:142-164 | A row in delivery is resolved for its key only |
| InteractionRelay.SessionInteractions.BlockingInteractions | src/server/composition.ts:343-351 | The open requests, without quizzes of other turns |
| InteractionRelay.SessionInteractions.AcceptPendingInteraction | src/server/composition.ts:1186-1201 | Only attention can start out acknowledged |
| InteractionRelay.SessionInteractions.ServerRequestResolved | src/server/composition.ts:1289-1306 | A cleared request is resolved, unless it is acknowledged attention or a quiz |
| InteractionRelay.SessionInteractions.DismissPendingInteractions | src/server/composition.ts:924-941 | The loop resolves every open request except quizzes and acknowledged attention |
| InteractionRelay.SessionInteractions.ShutDownSession | src/server/composition.ts:2836-2849 | The loop resolves every open request except attention and checkpoints |
| InteractionRelay.SessionInteractions.StartReply | src/server/composition.ts:2687-2697 | A generic reply is delivered only to an open request that is not attention |
| InteractionRelay.SessionInteractions.SettleReply | src/server/features/sessions/respond-interaction/endpoint.ts:54-76 | A delivered or cleared reply resolves the row of its id, an unavailable one nothing |
| InteractionRelay.SessionInteractions.AcceptCheckpointRequest | src/server/features/org-plan-checkpoint/application/coordinate.ts:204-209 | The request is added and its deadline armed |
| InteractionRelay.SessionInteractions.FailUnrecorded | src/server/features/org-plan-checkpoint/application/coordinate.ts:185-194 | The request is added, its deadline disarmed and its row failed, whatever its kind |
| InteractionRelay.SessionInteractions.ResponseSettled | src/server/features/org-plan-checkpoint/application/coordinate.ts:222-237 | Only a checkpoint is settled by its written response |
| InteractionRelay.SessionInteractions.DeadlineFires | src/server/features/org-plan-checkpoint/application/coordinate.ts:280-292 | The deadline disarms itself and resolves the row |
| InteractionRelay.SessionInteractions.FailPending | src/server/features/org-plan-checkpoint/application/coordinate.ts:239-245 | The loop fails every open checkpoint and disarms it |
| InteractionRelay.SessionInteractions.ResolveAttention | src/server/features/org-plan-attention/application/resolve.ts:81-191 | A resolver call answers from its replay, refuses an unparsable response, claims, begins, and settles, retries or waits, by every branch of its ports |
| InteractionRelay.SessionInteractions.GuidanceSettled | src/server/features/org-plan-attention/application/resolve.ts:138-151 | The delivery settles as answered, or goes back to acknowledged |
| RelayDispatch.DispatchFence | src/server/composition.ts:514-578 | Whenever start calls runtime.startTurn, whatever changed at its awaits: the control is on with the same generation and id, the plan is admitted and equals the one captured after the writer, out of which the step policy was validated, no turn is active and nothing blocks |
| RelayDispatch.PolicyPlansRunValidated | src/server/composition.ts:543-578 | A turn under a plan with policies runs under the validated, admissible policy of the step that comes next: before the first suspended step, the first in progress, with the current id, or with it among its children; without one, the first not done |
| RelayDispatch.GuardReturnsCurrent | src/server/composition.ts:1808-1852 | A normal return of the executor guard means its entry fence still holds, the evidence it read was acceptable and the settings it returns are those the evidence asks for and were validated; or that the plan has no policy |
| RelayDispatch.ResumeFence | src/server/composition.ts:597-618 | Whenever resume calls runtime.startExecutorTurn nothing blocks, and ownership and admission held when it was entered |
| RelayDispatch.ResumeOutlivesAdmission | src/server/composition.ts:602-605 | Resume asks for admission once: it dispatches even if the plan stops admitting it at the writer await |
| RelayDispatch.AttentionHoldsAutomation | src/server/composition.ts:514-637 | As long as no step closes an attention request, its deliveries included, neither start nor resume reaches the runtime and no guarded executor turn is let through, wherever their awaits were |
| RelayDispatch.HeldAttentionHoldsAutomation | src/server/composition.ts:514-637 | In particular acknowledged attention holds automation until a step ends the hold |
| RelayDispatch.QuietStartDispatches | src/server/composition.ts:514-578 | A start left alone at its awaits starts a turn, under the selected policy, exactly when it may enter |
| RelayDispatch.StepInv | src/server/composition.ts:514-637 | What the awaiting starts and resumes captured, and the fences of every logged dispatch, are kept by every step |
| DispatchClosures.Dispatcher.EnterStart | src/server/composition.ts:514-540 | The entry checks of start, up to the writer |
| DispatchClosures.Dispatcher.StartWithWriter | src/server/composition.ts:540-549 | The re-check after the writer, the captured plan and its selected policy |
| DispatchClosures.Dispatcher.StartTurn | src/server/composition.ts:550-578 | The last re-check, and the turn started when it passes |
| DispatchClosures.Dispatcher.EnterResume | src/server/composition.ts:597-603 | The entry checks of resume |
| DispatchClosures.Dispatcher.StartExecutorTurn | src/server/composition.ts:604-623 | The re-check of resume, and the executor turn |
| DispatchClosures.Dispatcher.EnterGuard | src/server/composition.ts:1808-1829 | The guard passes plans without policies, and otherwise captures its fence and plan |
| DispatchClosures.Dispatcher.GuardWithEvidence | src/server/composition.ts:1830-1846 | The evidence conditions under which the guard goes on |
| DispatchClosures.Dispatcher.GuardWithPolicy | src/server/composition.ts:1847-1851 | The last assertion before the guard returns |
| DispatchClosures.Dispatcher.Start | src/server/composition.ts:514-578 | The whole of start, with arbitrary stores at each await: it calls the runtime exactly when control, plan, turn and pending requests are, in plain terms, as required on entry, at the writer and at the last fence, the plan captured is still the plan and the policy of its next step was validated |
| DispatchClosures.Dispatcher.Resume | src/server/composition.ts:597-623 | The whole of resume: it calls the runtime exactly when owned, with a session and a runtime, admitted, with a writer, and with nothing open that blocks on entry or at the writer |
| DispatchClosures.Dispatcher.Guard | src/server/composition.ts:1808-1852 | The whole guard: it returns settings exactly when the control generation, plan identity, executor and plan of its entry stand at all three moments and the report of this thread asks for no more than validated settings |
| PlanAdmission.SuspensionIsBarrier | src/server/features/plans/domain/supervised-plan.ts:116-129 | The step selected, and every step before it, is not suspended |
| PlanAdmission.NothingExecutable | src/server/features/plans/domain/supervised-plan.ts:117-129 | Nothing is selected exactly when every step before the barrier is done and not current |
| PlanAdmission.SelectsNextExactly | src/server/features/plans/domain/supervised-plan.ts:117-129 | The index selected is that of the next step, quantified over the steps alone: the least one work points at before the first suspended step, else the least one before it that is not done |
| PlanAdmission.SelectedPolicyExactly | src/server/composition.ts:545-549 | The policy to validate is that of the next step of a plan of version 1, and there is none otherwise |
| PlanAdmission.AdmitsExactly | src/server/features/plans/domain/model-policy-admission.ts:34-93 | A plan is admitted exactly when the assessment, reason by reason in order, finds nothing against it |
| PlanAdmission.AdmittedPlansSelectPolicies | src/server/features/plans/domain/model-policy-admission.ts:34-93 | An admitted plan has an admissible policy for its next step, or no policies at all |
| PlanAdmission.FindIndex | src/server/features/plans/domain/supervised-plan.ts:117-129 | The first index that satisfies the condition, or none |
| CapacityRecovery.RecoveryLifeCycle | src/server/composition.ts:2032-2066 | At every step the recovering sessions are the disjoint union of armed timers and running tasks, so a session is scheduled at most once at a time |
| CapacityRecovery.DrainEmpties | src/server/composition.ts:2822-2830 | After the drain of onClose no recovery, timer or task is left |
| CapacityRecovery.DrainCompletes | src/server/composition.ts:2827-2830 | Letting the remaining tasks finish always completes the drain |
| CapacityRecovery.ClosedForGood | src/server/composition.ts:2827-2855 | Once the database closes no step saves a session or starts anything |
| CapacityRecovery.SavesAreTasks | src/server/composition.ts:2037-2060 | A session is saved only by its own task, once when it starts and once when its recycle settles, and a task that starts after closing began saves nothing |
| CapacityRecovery.SavesAccount | src/server/composition.ts:2039-2056 | Over any run a session is saved exactly as often as its tasks began a recycle or settled one with the session still there |
| CapacityRecovery.ScheduleExactly | src/server/composition.ts:2033-2034 | A recovery is scheduled exactly for an acknowledged session without one, before closing |
| CapacityRecovery.TimerFiresExactly | src/server/composition.ts:2035-2062 | A timer that fires becomes a queued task |
| CapacityRecovery.TaskStartsExactly | src/server/composition.ts:2038-2047 | A queued task saves and recycles exactly while running and recoverable, and is otherwise forgotten unsaved |
| CapacityRecovery.RecycleSettlesExactly | src/server/composition.ts:2047-2060 | A recycle that settles is forgotten, and saved exactly if its session is still there |
| CapacityRecovery.ClearTimersExactly | src/server/composition.ts:2822-2830 | Closing forgets what has only a timer and awaits exactly the tasks that are left |
| CapacityRecovery.CapacityRecoveries.ScheduleRecovery | src/server/composition.ts:2032-2066 | A recovery is scheduled unless closing, already recovering or not acknowledged |
| CapacityRecovery.CapacityRecoveries.TimerFired | src/server/composition.ts:2035-2062 | The timer gives way to a task |
| CapacityRecovery.CapacityRecoveries.StartTask | src/server/composition.ts:2037-2048 | A task gives up when closing or not recoverable, else saves and recycles |
| CapacityRecovery.CapacityRecoveries.RecycleSettled | src/server/composition.ts:2045-2060 | The outcome is saved where there is a session, and the recovery forgotten |
| CapacityRecovery.CapacityRecoveries.StopTimers | src/server/composition.ts:2822-2830 | The loop forgets every timed recovery, and the tasks to await are exactly those running |
| ToolEfficiency.Parse | src/shared/contracts/tool-efficiency.ts:54-206 | The validator, group loop included, returns a snapshot exactly when the snapshot is well formed and the input has each of its parts under that part's own name |
| ToolEfficiency.ParseGroup | src/shared/contracts/tool-efficiency.ts:89-195 | A group is returned exactly when it is well formed and the raw group has each of its parts, metrics and completeness rows included, under its own name |
| ToolEfficiency.ParseGroups | src/shared/contracts/tool-efficiency.ts:86-195 | The loop accepts exactly when every group does and no identity repeats |
| ToolEfficiency.ParsesExactly | src/shared/contracts/tool-efficiency.ts:54-206 | The same as one equivalence over any input and any snapshot, stated on the values |
| ToolEfficiency.SnapshotRoundTrip | src/shared/contracts/tool-efficiency.ts:41-206 | Every well-formed snapshot, printed and parsed, is itself |
| ToolEfficiency.ParsedIsBounded | src/shared/contracts/tool-efficiency.ts:77-180 | At most 64 groups with distinct identities, at most 1024 calls, each completeness row summing to its calls |
| ToolEfficiency.ParsedIsFixedPoint | src/shared/contracts/tool-efficiency.ts:54-206 | A parsed snapshot, printed and parsed again, is itself |
| ToolEfficiency.TypedExactlyWhenStrings | src/shared/contracts/tool-efficiency.ts:73-146 | A parsed snapshot has its declared type exactly when the enumerated input fields were strings |
| ToolEfficiency.ArrayCoverageAccepted | src/shared/contracts/tool-efficiency.ts:73 | A one-element array around a coverage word is accepted and kept as an array |
| ToolEfficiency.RegisterHoldsEarliestGreatest | src/client/features/agent-activity/agent-activity-controller.ts:237-242 | Any sequence of deliveries leaves the earliest accepted one of greatest revision |
| ToolEfficiency.RegisterIgnoresOrder | src/client/features/agent-activity/agent-activity-controller.ts:237-242 | With one snapshot per revision, order and repetition of deliveries do not matter |
| WorkingParagraphs.NewestFirstWorkingParagraphs | src/client/features/chat/working-paragraphs.ts:12-37 | The result is the paragraphs of the tokens newest first, each the source substring at its offset, disjoint and in decreasing offset order |
| WorkingParagraphs.SplitParagraphs | src/client/features/chat/working-paragraphs.ts:13-35 | The loop builds one paragraph per token range, in order |
| WorkingParagraphs.ParagraphsPartition | src/client/features/chat/working-paragraphs.ts:16-35 | Ranges are ordered and disjoint; a token is in one exactly when it is no space, or a space behind a pending heading |
| WorkingParagraphs.ParagraphsEndAtBlocks | src/client/features/chat/working-paragraphs.ts:23-33 | Only the last token of a paragraph can be a block; the others are its headings and their spaces |
| WorkingParagraphs.ParagraphsEndOnlyThere | src/client/features/chat/working-paragraphs.ts:23-35 | A paragraph ends behind a block or with the text: consecutive headings never end one |
| WorkingParagraphs.ParagraphIsSubstring | src/client/features/chat/working-paragraphs.ts:17-32 | A paragraph is the piece of the source at its offset |
| AttentionToastDedupe.Dedupe.Claim | src/client/features/autopilot/attention-toast-dedupe.ts:17-26 | A claim succeeds exactly for an id not held; the set keeps its last entries and a successful write stores it |
| AttentionToastDedupe.HoldsLastClaims | src/client/features/autopilot/attention-toast-dedupe.ts:19 | The set is always the last limit successful claims, in order |
| AttentionToastDedupe.ReclaimedOnlyAfterLimitOthers | src/client/features/autopilot/attention-toast-dedupe.ts:17-26 | An id succeeds again only after at least limit distinct other ids did |
| AttentionToastDedupe.RebuiltAnswersAlike | src/client/features/autopilot/attention-toast-dedupe.ts:30-41 | A dedupe rebuilt from a successful write answers every later claim sequence identically |
| AttentionToastDedupe.RestoredIsWindow | src/client/features/autopilot/attention-toast-dedupe.ts:30-41 | Whatever was stored, the restored set has distinct ids and at most limit of them |
| AttentionToastDedupe.RestoredExactly | src/client/features/autopilot/attention-toast-dedupe.ts:30-41 | A restored set is the distinct ones of the last limit strings stored, in order of first occurrence |
| FileChangeSummary.SummarizeChangedFiles | src/client/features/chat/file-change-summary.ts:22-50 | Each path once in first-seen order; its counts are unknown exactly when some change to it is, else the exact sums; and its latest touch |
| FileChangeSummary.InsertAll | src/client/features/chat/file-change-summary.ts:32-47 | The inner loop adds one activity's changes to the table |
| FileChangeSummary.PathSumsConserve | src/client/features/chat/file-change-summary.ts:33-40 | Summing per path and then over paths gives the sum of all changes |
| FileChangeSummary.TotalsConserve | src/client/features/chat/file-change-summary.ts:52-62 | The totals count each path once and sum every change of every activity, or are unknown exactly when a change is |
| FileChangeSummary.TotalsIgnoreOrder | src/client/features/chat/file-change-summary.ts:52-62 | Any reordering of the changes gives the same totals |
| FileChangeSummary.OneMoreChange | src/client/features/chat/file-change-summary.ts:32-47 | One more change grows the file of its path in place, or adds it at the end: known counts add up, unknown ones stay unknown, the touch is the later one; every other file stays |
| FileChangeSummary.ReportedExactly | src/client/features/chat/file-change-summary.ts:25-31 | An activity reports nothing unless its caption spells out a file change, then its own changes, or else one of unknown size for each filled line of its detail |
| FileChangeSummary.ChangesInTurn | src/client/features/chat/file-change-summary.ts:24-32 | The changes of an activity line up, in order and with its time, behind those of the activities before it |
| FileChangeSummary.TotalsInTurn | src/client/features/chat/file-change-summary.ts:52-62 | One more file adds one and its own counts to the totals, each known only while all of that kind are |
| OrgPlanPosition.NameRoundTrip | src/shared/org-plan-position.ts:17-31 | Parsing a printed agent name behind any path gives back task name, position and generation |
| OrgPlanPosition.ParsesExactlyNames | src/shared/org-plan-position.ts:17-26 | The parser accepts exactly the printed names, wherever they stand in a path |
| OrgPlanPosition.ParsedIdentity | src/shared/org-plan-position.ts:17-30 | What is parsed from a name, and that anything else is displayed as it is |
| OrgPlanPosition.NameExactly | src/shared/org-plan-position.ts:18 | The name in a path is its last non-empty segment, trailing slashes or not, and the path itself where there is none |
| OrgPlanPosition.PositionReadsBack | src/shared/org-plan-position.ts:7-9 | The two numbers of a printed position stand before and behind its dot, in order |
| OrgPlanPosition.DecimalExactly | src/shared/org-plan-position.ts:8 | A number is printed in the ordinary digits |
| OrgPlanPosition.RecognisesPositions | src/shared/contracts/org-plan-checkpoint.ts:221-223 | The recogniser accepts exactly what the printer prints for positions from 1 on |
| OrgPlanPosition.RecognisesChildPositions | src/shared/contracts/org-plan-checkpoint.ts:224-226 | The child recogniser accepts exactly what the printer prints for pairs from 1 on |
| OrgPlanPosition.DecimalIsPositive | src/shared/org-plan-position.ts:8 | A printed number from 1 on is digits without a leading zero, and reads back |
| OrgPlanPosition.PositiveIsDecimal | src/shared/org-plan-position.ts:19 | Digits without a leading zero are what their number prints as |
| OrgPlanCheckpoint.CheckpointExact | src/shared/contracts/org-plan-checkpoint.ts:76-175 | The parser accepts exactly the JSON of well-formed reports, positions included, and loses nothing of them |
| OrgPlanCheckpoint.CommitExact | src/shared/contracts/org-plan-checkpoint.ts:227-239 | A commit record is accepted exactly when it is the JSON of a well-formed commit |
| OrgPlanCheckpoint.ShortHashExactly | src/shared/contracts/org-plan-checkpoint.ts:233-236 | A short hash is 7 to 16 lower-case hexadecimal digits |
| QuizContract.ResponseExact | src/shared/contracts/quiz.ts:148-165 | For every parsed quiz a response is accepted if and only if it is successful, is one input text that decodes, and its answers object has exactly the question ids, each with a non-blank answer of at most 2000 characters the question allows |
| QuizContract.ParsedQuizIsWellFormed | src/shared/contracts/quiz.ts:91-101 | A parsed quiz has one to eight questions with distinct, valid ids and bounded texts |
| QuizContract.QuizExact | src/shared/contracts/quiz.ts:91-203 | For any value the parser returns a quiz exactly when the quiz is well formed and the value has each of its parts under that part's own name |
| Json.BoundedTextExactly | src/shared/contracts/quiz.ts:236-238 | Bounded text is short enough and has a character that trim would leave |
| QuizContract.QuestionIdExactly | src/shared/contracts/quiz.ts:232-234 | A question id is a letter and up to 63 letters, digits, underscores and hyphens |
| QuizContract.LastAnswersExactly | src/shared/contracts/quiz.ts:127-146 | A tool response holds, for each id, its last answer that is not blank, and nothing else |
| QuizContract.PickedLabelsAreAccepted | src/shared/contracts/quiz.ts:127-165 | Every choice of one label per question survives the tool response and is accepted |
| QuizContract.QuizRoundTrip | src/shared/contracts/quiz.ts:91-203 | A well-formed quiz, printed and parsed again, is itself |

## Left out

- HTTP routes, authentication, process launching, WebSocket and SQLite internals: their results are parameters or steps of the environment.
- The rest of composition.ts, which wires the Autopilot coordinator, session runtimes, notifications and plan sources.
- What runtime.startTurn and runtime.startExecutorTurn do once called, and the assertCurrent closure the guard hands to them.
- Message texts, labels and timestamps: recovery notices and bounded attention reports are values the environment supplies.
- The contract predicates for Autopilot and activity snapshots and attention payloads: operations take what those predicates made of a payload.
- mapNativeUserInputToQuiz, toOrgPlanCheckpointToolResponse, withoutDialogueEchoes and the other small allowlist parsers: easy members, or without a law to prove.
- AgentActivityClient.AgentActivityController: does not model the two publish callbacks, the close call on WebSocket objects or clearTimeout; AgentActivityRuns keeps the open sockets and live timeouts.
- InteractionRelay.SessionInteractions.List: does not give the row order, because no modelled step depends on it; the order of published resolutions is not modelled.
- InteractionRelay.SessionInteractions.Add: does not keep payloads and request times, which no modelled step reads.
- RelayDispatch.DispatchFence: is about one session, because every store the fences read is keyed by session.
- PlanAdmission.AdmittedPlansSelectPolicies: takes the model and effort checks of a policy as one flag, because they are patterns over opaque texts.
- CapacityRecovery.CapacityRecoveries.StartTask: takes whether the session is recoverable as an input, because sessions are not modelled there.
- OrgPlanPosition.NameRoundTrip: is about safe integers; a larger number is parsed but its rounded position is not modelled.
- QuizContract.ResponseExact: counts characters where JavaScript counts UTF-16 units.
- ToolEfficiency.Parse: does not model objects with a toString of their own in the String coercions.
- FileChangeSummary.SummarizeChangedFiles: takes counts as integers and lower-cases ASCII letters only, the only ones that can spell the caption prefix.
