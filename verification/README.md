# agent-rdp, verified

A Dafny model of the parts of agent-rdp where several things happen at once or where a
small formula has to be right for every input, with proofs of what those parts promise.
`dafny verify dfyconfig.toml` checks all of it.

| file | what it models |
|---|---|
| `SessionSlot.dfy` | the session slot of the daemon and what races for it: connects, dying frame processors, the accept loop, teardown tasks, the user |
| `AutoReconnect.dfy` | the state the daemon keeps in order to reconnect, and when it gives up |
| `ReconnectLoop.dfy` | any number of reconnect loops, their guards, and user requests |
| `DvcChannel.dfy`, `DvcRuns.dfy` | the automation channel: two agents competing for it, and the table of requests in flight |
| `KeepAlive.dfy` | the keep-alive of the frame processor and its verdicts (Client Refresh Rect PDU, section 2.2.11.2 of MS-RDPBCGR) |
| `Calendar.dfy`, `Lexical.dfy`, `TimeStamps.dfy`, `Diagnostics.dfy` | civil dates, UTC stamps, their order as file names, and the pruning of captures that relies on it |
| `KeyNames.dfy`, `Transport.dfy`, `Turns.dfy`, `Keyboard.dfy`, `Typing.dfy` | key combinations, what they cost, and what is sent, slept and left held when sends fail |
| `LineReader.dfy` | reading a capped line from a chunked stream |
| `Region.dfy` | clamping a rectangle and copying its pixels |
| `IpcClient.dfy`, `IpcRuns.dfy`, `IpcText.dfy`, `IpcReconnect.dfy` | the SDK's connection, whose reply each call gets, its text, and connecting again |
| `Bytes.dfy`, `Utf8.dfy` | bytes, well-formed UTF-8 and the lenient decoding of it |

Objects that the program updates in place are classes here (`DvcSharedState`,
`AutoReconnect`, `KeepAliveWatch`, `FrameProcessor`, `DiagnosticsDir`, `Session`,
`BufReader`, `IpcClient`); their methods are proved against functions on the object's
state as a value, and the properties over whole runs are lemmas about those functions. The
protocols with several tasks (`SessionSlot`, `ReconnectLoop`) are step relations whose
steps are the accesses to shared state.

## Where the code and what it says differ

Each of these is a lemma with a failing input or run; the lemma named last says exactly when
the promise holds.

- A connect that was overtaken by another stores its session over the newer one
  (`crates/agent-rdp-daemon/src/handlers/connect.rs:185-207`); when that session dies its
  drop event is stale, and the slot keeps the dead session.
  `SessionSlot.OverlappingConnectsLeaveCorpse`; `SessionSlot.CorpsePossibleIff`.
- When the lock is contended as an attempt ends, the release of the in-flight mark is left
  to a task (`crates/agent-rdp-daemon/src/reconnect.rs:278-292`), and the loop can take its
  own mark for another attempt's and leave, with a next attempt still announced.
  `ReconnectLoop.ContendedReleaseEndsTheLoop`; `ReconnectLoop.OwnAttemptsDoNotStopTheLoop`.
- An expired request is removed from the table by id
  (`crates/agent-rdp-daemon/src/automation/dvc_ipc.rs:366-372`), which another
  caller with the same key may have registered under meanwhile. `DvcRuns.RetryWithSameKeyIsOrphaned`; `DvcRuns.OrphanIff`.
- An agent of the right build is told to exit while a stale agent that has not greeted yet
  holds the channel; then the stale one is told to exit too
  (`crates/agent-rdp-daemon/src/automation/dvc_channel.rs:386-481`).
  `DvcRuns.BothAgentsTurnedAway`; `DvcRuns.NobodyLeftIff`.
- A key-down whose reply comes too late is counted as not pressed and never released
  (`crates/agent-rdp-daemon/src/handlers/keyboard.rs:263-291`), but it is still queued, and
  the processor writes it (`crates/agent-rdp-daemon/src/rdp_session.rs:1038-1052`).
  `Keyboard.OneLostPress`, `Keyboard.LostPressStaysHeld`; `Keyboard.NothingStuckIff`,
  `Keyboard.NothingStuckWhen`.
- File names with a UTC stamp sort chronologically
  (`crates/agent-rdp-daemon/src/timefmt.rs:31`) up to the end of the year 9999.
  `TimeStamps.FiveDigitsSortFirst`, `Diagnostics.NewestCaptureDropped`;
  `TimeStamps.SortedBelow`, `Diagnostics.KeepsTheNewestIff`.
- `IpcClient.send` takes the place of a call that still waits
  (`packages/agent-rdp/src/client.ts:129-131`). `IpcRuns.OverlapTakesTheReply`;
  `IpcRuns.SendMixesUpIff`.
- `data.toString()` decodes each piece of the stream by itself
  (`packages/agent-rdp/src/client.ts:74`), so a character cut in two is lost.
  `IpcText.AcuteAccentIsLost`; `IpcText.Utf8IntactIff`, `IpcText.AllWholeIff`.
- Connecting the same client object again keeps the buffer, the waiting call and the old
  socket's handlers (`packages/agent-rdp/src/client.ts:55-85`).
  `IpcReconnect.WaitingReplyGoesAstray`, `IpcReconnect.OldSocketHarms`,
  `IpcReconnect.LateCloseFailsNewCall`; `IpcReconnect.HarmsNewCallsIff`.
- The limit on the cost of typing is said to be shared by all sides
  (`crates/agent-rdp-protocol/src/request.rs:271-274`), but the daemon's handler for typing
  does not apply it (`crates/agent-rdp-daemon/src/handlers/keyboard.rs:21-40`); only the
  sequence handler does. `Typing.HandleType`; `Typing.EstimateIsExact`.
- A capture's picture whose record was never written
  (`crates/agent-rdp-daemon/src/diagnostics.rs:250-252`) is never pruned.
  `Diagnostics.StrayPictureStays`; `Diagnostics.PictureGoesIff`.
- A PDU recorded at the very clock reading of the refresh before it is not taken for an
  answer (`crates/agent-rdp-daemon/src/rdp_session.rs:1358-1362`).
  `KeepAlive.TiedIsNotAnAnswer`; `KeepAlive.LastFrameTells`.

## Model

| member | source | states |
|---|---|---|
| `SessionSlot.StepKeepsInv` | crates/agent-rdp-daemon/src/handlers/connect.rs:53-207 | every atomic step of every connect, frame processor, accept loop, teardown task and user request keeps: who holds the slot lock, what the slot and the automation state hold, which sessions were stored by a connect already superseded, and that the death of the latest session is always known to the event queue, the accept loop or a teardown not yet over |
| `SessionSlot.StepKeepsOutstanding` | crates/agent-rdp-daemon/src/daemon.rs:220-239 | the accept loop and the teardown tasks never lose the drop event of the latest generation |
| `SessionSlot.ReachableInv` | crates/agent-rdp-daemon/src/daemon.rs:220-341 | the invariant holds in every reachable state, overlapping connects included |
| `SessionSlot.HowSessionsLeave` | crates/agent-rdp-daemon/src/daemon.rs:284-295 | in any interleaving a session leaves the slot only by a later or other connect, by the user, or by the teardown of its own death (or of a later one, if it was stored late) - a teardown never removes a session of a later generation |
| `SessionSlot.HowAutomationLeaves` | crates/agent-rdp-daemon/src/daemon.rs:312-329 | automation state is wiped only by a connect, by the user, or by a teardown of its own or a later generation |
| `SessionSlot.RunLeaves` | crates/agent-rdp-daemon/src/handlers/connect.rs:60-207 | after any run the slot holds the session stored last, and the automation state is that of the connect that installed some last, unless either was taken or cleaned since |
| `SessionSlot.InstalledUntilCleaned` | crates/agent-rdp-daemon/src/handlers/connect.rs:105-129 | automation state a connect installs is there until a later connect installs or cleans, the user cleans, or a teardown of its own or a later generation does |
| `SessionSlot.AutomationCanBeUp` | crates/agent-rdp-daemon/src/handlers/connect.rs:105-207 | a settled state with the latest session alive in the slot and its automation state installed is reachable |
| `SessionSlot.EventsFit` | crates/agent-rdp-daemon/src/daemon.rs:220-239 | the drop-notification channel never holds more than eight events |
| `SessionSlot.EveryStepProgresses` | crates/agent-rdp-daemon/src/handlers/connect.rs:53-207 | every step of a connect, a processor or a teardown brings it closer to its end |
| `SessionSlot.ProcessorMoves` | crates/agent-rdp-daemon/src/rdp_session.rs:1675-1693 | an event follows a stamp; told to stop, a processor leaves no stamp; killed, it never queues its event |
| `SessionSlot.TeardownDecides` | crates/agent-rdp-daemon/src/daemon.rs:278-318 | a teardown goes on exactly while its generation is the latest, and otherwise returns without touching anything |
| `SessionSlot.LocksHold` | crates/agent-rdp-daemon/src/handlers/connect.rs:60-129 | while somebody holds a lock nobody else changes what it guards |
| `SessionSlot.NothingLeaks` | crates/agent-rdp-daemon/src/handlers/connect.rs:185-207 | in every run a session that was built and whose connect is past storing it is in the slot, or its handle was taken or dropped |
| `SessionSlot.LatestDeathIsTornDown` | crates/agent-rdp-daemon/src/daemon.rs:284-329 | when all is settled and the latest session has died, that session is not in the slot |
| `SessionSlot.QuiescentCorpseIsLate` | crates/agent-rdp-daemon/src/handlers/connect.rs:185-207 | when all is settled a dead session can be in the slot only if its connect was already superseded when it stored it |
| `SessionSlot.NoCorpse` | crates/agent-rdp-daemon/src/handlers/connect.rs:60-207 | with connects that do not overlap: whenever no connect runs, no processor is between stamping and sending, and no event or teardown is pending, the slot is empty or holds a session whose processor has not died |
| `SessionSlot.StepKeepsAutomationGone` | crates/agent-rdp-daemon/src/daemon.rs:312-329 | with connects that do not overlap no step brings automation state back after a completed teardown of the latest session |
| `SessionSlot.NothingLeftOfTheDead` | crates/agent-rdp-daemon/src/daemon.rs:284-329 | with connects that do not overlap: once all is settled and the latest session has died, neither it nor any automation state is left |
| `SessionSlot.SequentialIsNeverLate` | crates/agent-rdp-daemon/src/handlers/connect.rs:53-60 | with connects that do not overlap no session is ever stored by a superseded connect |
| `SessionSlot.CorpsePossibleIff` | crates/agent-rdp-daemon/src/handlers/connect.rs:196-207 | the exact condition: from a settled state the slot can come to hold a dead session for good if and only if the session in it is not of the latest generation |
| `SessionSlot.OverlappingConnectsLeaveCorpse` | crates/agent-rdp-daemon/src/handlers/connect.rs:185-207 | two overlapping connects reach a settled state in which the slot holds a dead session |
| `SessionSlot.SilentDeathLeavesCorpse` | crates/agent-rdp-daemon/src/daemon.rs:220-239 | the death of a superseded session that sits in the slot is filtered as stale and leaves it there |
| `SessionSlot.SlotOnlyEmpties` | crates/agent-rdp-daemon/src/handlers/connect.rs:60-75 | without a new connect the session in the slot stays or goes; nothing replaces it |
| `AutoReconnect.Moves` | crates/agent-rdp-daemon/src/reconnect.rs:145-240 | every operation keeps the count of short sessions equal to the trailing run of outages within 120s of the latest success, capped at the integer width |
| `AutoReconnect.RunExists` | crates/agent-rdp-daemon/src/reconnect.rs:197-218 | such a trailing run is defined for every history |
| `AutoReconnect.GivesUpIff` | crates/agent-rdp-daemon/src/reconnect.rs:197-218 | an outage makes the daemon give up exactly when it is the fifth or later of a run of short ones |
| `AutoReconnect.StretchState` | crates/agent-rdp-daemon/src/reconnect.rs:197-227 | while outages and successes alternate under a monotone clock, replaying them gives the state the bound is about |
| `AutoReconnect.LongOutages` | crates/agent-rdp-daemon/src/reconnect.rs:197-227 | accepted outages are bounded by five per long session, and long sessions take 120s each |
| `AutoReconnect.OutagesAcceptedAreBounded` | crates/agent-rdp-daemon/src/reconnect.rs:197-227 | within time t at most 5(1 + t/120s) outages are accepted |
| `AutoReconnect.AutoReconnect.constructor` | crates/agent-rdp-daemon/src/reconnect.rs:125-140 | starts with nothing remembered |
| `AutoReconnect.AutoReconnect.Remember` | crates/agent-rdp-daemon/src/reconnect.rs:145-160 | a user connect resets every counter and mark and keeps the request; every field |
| `AutoReconnect.AutoReconnect.Stop` | crates/agent-rdp-daemon/src/reconnect.rs:172-178 | records the reason and withdraws the schedule; every field it leaves alone |
| `AutoReconnect.AutoReconnect.StandDown` | crates/agent-rdp-daemon/src/reconnect.rs:187-189 | withdraws the schedule and nothing else |
| `AutoReconnect.AutoReconnect.NoteOutage` | crates/agent-rdp-daemon/src/reconnect.rs:197-218 | accepts the outage or gives up, as the count of short sessions over the history says |
| `AutoReconnect.AutoReconnect.NoteSuccess` | crates/agent-rdp-daemon/src/reconnect.rs:220-227 | counts the success, notes its time, and clears the outage; every field |
| `AutoReconnect.AutoReconnect.Disarm` | crates/agent-rdp-daemon/src/reconnect.rs:230-240 | forgets the request and disables reconnection; every field |
| `AutoReconnect.AutoReconnect.SetInFlight` | crates/agent-rdp-daemon/src/reconnect.rs:269-292 | the in-flight mark as claimed and released |
| `ReconnectLoop.UserActionEndsEarlierLoops` | crates/agent-rdp-daemon/src/daemon.rs:493-498 | once a user connect, disconnect or shutdown is counted, no loop armed before it passes a guard again, in any run, and unless it was past its last check it starts no attempt |
| `ReconnectLoop.BarredLoopStaysOut` | crates/agent-rdp-daemon/src/daemon.rs:619-686 | a loop whose count is outdated stays outside an attempt, whatever it and the others do |
| `ReconnectLoop.AlwaysArmedInThePast` | crates/agent-rdp-daemon/src/daemon.rs:270-271 | a loop is never armed under a count the user has not reached |
| `ReconnectLoop.StepKeepsUndisturbed` | crates/agent-rdp-daemon/src/daemon.rs:663-762 | a step of the only loop keeps everything its guard reads as that loop left it |
| `ReconnectLoop.JustArmed` | crates/agent-rdp-daemon/src/daemon.rs:594-619 | a loop armed at the current generation, with reconnection enabled, a request kept and no attempt marked, starts out undisturbed |
| `ReconnectLoop.UncontendedLoopGoesOn` | crates/agent-rdp-daemon/src/daemon.rs:600-762 | from the moment it is armed its guard passes every time, however many attempts fail, as long as no release is contended |
| `ReconnectLoop.OwnAttemptsDoNotStopTheLoop` | crates/agent-rdp-daemon/src/reconnect.rs:65-91 | after any number of its own attempts and generation bumps the loop's guard passes if and only if no release of its own in-flight mark is still under way |
| `ReconnectLoop.ContendedReleaseEndsTheLoop` | crates/agent-rdp-daemon/src/reconnect.rs:278-292 | a contended release does end the loop: from every undisturbed state one failed attempt with a late release makes it leave for good |
| `ReconnectLoop.StartsAttempt` | crates/agent-rdp-daemon/src/daemon.rs:619-712 | what starting an attempt changes |
| `ReconnectLoop.FailsContended` | crates/agent-rdp-daemon/src/daemon.rs:713-762 | what a failed attempt with a contended release changes |
| `ReconnectLoop.GuardPassesIff` | crates/agent-rdp-daemon/src/reconnect.rs:65-91 | a guard passes exactly when reconnection is enabled, a request kept, nothing given up, no attempt marked, the dropped session still the latest, and no user request counted since |
| `ReconnectLoop.GuardDecides` | crates/agent-rdp-daemon/src/daemon.rs:640-686 | what a guard that passes or fails does, before and after the pause |
| `ReconnectLoop.OutageDecides` | crates/agent-rdp-daemon/src/daemon.rs:600-616 | a new loop goes on exactly if reconnection is enabled and the outage is not one too many |
| `ReconnectLoop.OutcomeDecides` | crates/agent-rdp-daemon/src/daemon.rs:718-762 | a loop goes on if and only if the outcome was retryable; what each outcome leaves in the shared object |
| `ReconnectLoop.OutcomeTravels` | crates/agent-rdp-daemon/src/daemon.rs:700-716 | the outcome of an attempt is the one reported, with the generation of that moment adopted |
| `ReconnectLoop.MarkMoves` | crates/agent-rdp-daemon/src/reconnect.rs:269-292 | the in-flight mark is set for an attempt and cleared after it, at once or by a task |
| `ReconnectLoop.Pauses` | crates/agent-rdp-daemon/src/reconnect.rs:22-31 | pauses of 5, 10, 20 and 40 seconds, then a minute each |
| `ReconnectLoop.FinalReportEndsTheLoop` | crates/agent-rdp-daemon/src/daemon.rs:718-759 | in every run a loop that has reported success or a refusal is over for good and does nothing any more |
| `ReconnectLoop.BarredUntilConnected` | crates/agent-rdp-daemon/src/reconnect.rs:65-91 | once given up or disarmed no guard of any loop passes until the user connects |
| `ReconnectLoop.RefusalBarsAllLoops` | crates/agent-rdp-daemon/src/daemon.rs:751-759 | in every run so it is after the server refused the credentials or the request, and after a disconnect or shutdown |
| `ReconnectLoop.ConnectedStartsOver` | crates/agent-rdp-daemon/src/reconnect.rs:145-160 | a user connect leaves everything as a new loop wants it |
| `ReconnectLoop.BumpBarsGuards` | crates/agent-rdp-daemon/src/daemon.rs:619-686 | a connect in progress bars every loop that waited for an older session |
| `ReconnectLoop.StaleLoopNeverStarts` | crates/agent-rdp-daemon/src/daemon.rs:619-659 | in every run a loop armed for a session that is no longer the latest starts no attempt |
| `ReconnectLoop.OutageNotedOnce` | crates/agent-rdp-daemon/src/daemon.rs:602-616 | a loop notes its outage once |
| `DvcChannel.DvcSharedState.constructor` | crates/agent-rdp-daemon/src/automation/dvc_channel.rs:165-183 | starts with no agent and an empty table |
| `DvcChannel.DvcSharedState.Start` | crates/agent-rdp-daemon/src/automation/dvc_channel.rs:319-345 | the whole new state: primary if none, extra otherwise |
| `DvcChannel.DvcSharedState.Process` | crates/agent-rdp-daemon/src/automation/dvc_channel.rs:347-534 | the whole new state and the replies, for every payload on every channel |
| `DvcChannel.DvcSharedState.FailPending` | crates/agent-rdp-daemon/src/automation/dvc_channel.rs:223-233 | every entry of the table gets the outcome and the table is empty; nothing else changes |
| `DvcChannel.DvcSharedState.Close` | crates/agent-rdp-daemon/src/automation/dvc_channel.rs:536-582 | the whole new state, for the primary, an extra and an unknown channel |
| `DvcChannel.DvcSharedState.ReleasePrimary` | crates/agent-rdp-daemon/src/automation/dvc_channel.rs:211-235 | releases only the primary, makes it an extra, empties the table |
| `DvcChannel.DvcSharedState.Register` | crates/agent-rdp-daemon/src/automation/dvc_ipc.rs:286-329 | refuses without a channel, without a sender, or when the id is in use; otherwise adds the entry and raises the deadline mark |
| `DvcChannel.DvcSharedState.RemoveExpired` | crates/agent-rdp-daemon/src/automation/dvc_ipc.rs:366-372 | removes the entry under the id |
| `DvcRuns.StepKeepsChannels` | crates/agent-rdp-daemon/src/automation/dvc_channel.rs:319-345 | open channels are exactly the primary and the extras, and the two never overlap |
| `DvcRuns.StepKeepsAgents` | crates/agent-rdp-daemon/src/automation/dvc_channel.rs:386-481 | a recorded handshake belongs to the current primary and carries an accepted build; who was told to exit is no primary |
| `DvcRuns.HelloOutcome` | crates/agent-rdp-daemon/src/automation/dvc_channel.rs:386-481 | one step: a handshake ends recorded as primary without a reply, or as an extra sent one shutdown; an accepted build is turned away only while another open channel is primary |
| `DvcRuns.EveryHello` | crates/agent-rdp-daemon/src/automation/dvc_channel.rs:386-481 | the same for every handshake of every run |
| `DvcRuns.RecordedPrimaryStays` | crates/agent-rdp-daemon/src/automation/dvc_channel.rs:386-481 | a primary whose handshake is recorded stays the primary while no agent comes, goes or is released |
| `DvcRuns.NobodyLeftIff` | crates/agent-rdp-daemon/src/automation/dvc_channel.rs:386-481 | turning away an agent of the accepted build leaves nobody to talk to, in some continuation without opens, closes and releases, if and only if builds are checked and the primary has no recorded handshake |
| `DvcRuns.OnlyHelloIsAnswered` | crates/agent-rdp-daemon/src/automation/dvc_channel.rs:347-534 | nothing but a first handshake is ever answered |
| `DvcRuns.ShutdownsAreFew` | crates/agent-rdp-daemon/src/automation/dvc_channel.rs:386-481 | in every stretch of every run at most one shutdown is sent for each time a channel is opened |
| `DvcRuns.WakeUpsCount` | crates/agent-rdp-daemon/src/automation/dvc_channel.rs:536-582 | over a run the supervisor is woken exactly as often as a supervised primary closes |
| `DvcRuns.FewShutdownsAndWakeUps` | crates/agent-rdp-daemon/src/automation/dvc_channel.rs:319-582 | both over all runs from the start |
| `DvcRuns.WakeUpsArePrimaryCloses` | crates/agent-rdp-daemon/src/automation/dvc_channel.rs:536-582 | the supervisor is woken once per close of the primary and by nothing else |
| `DvcRuns.StepKeepsTable` | crates/agent-rdp-daemon/src/automation/dvc_ipc.rs:285-372 | every waiting request is in the table under its own id; an entry without a waiter is one whose deadline passed |
| `DvcRuns.StepKeepsBusy` | crates/agent-rdp-daemon/src/automation/dvc_ipc.rs:319-328 | the busy mark is the furthest deadline granted since the agent last changed |
| `DvcRuns.EveryRun` | crates/agent-rdp-daemon/src/automation/dvc_channel.rs:211-582 | all of these hold at every point of every run |
| `DvcRuns.FromTheStart` | crates/agent-rdp-daemon/src/automation/dvc_channel.rs:165-183 | and from the initial state |
| `DvcRuns.OutcomesAreFinal` | crates/agent-rdp-daemon/src/automation/dvc_channel.rs:483-518 | a registration has at most one outcome |
| `DvcRuns.EntriesAreNotOverwritten` | crates/agent-rdp-daemon/src/automation/dvc_ipc.rs:299-307 | no registration takes over the entry of another |
| `DvcRuns.HowRequestsEnd` | crates/agent-rdp-daemon/src/automation/dvc_ipc.rs:341-372 | a waiting request ends by a reply on the primary, by its close or release (which empty the table), by its own deadline, or by the late removal of an expired request with the same id |
| `DvcRuns.ReplySettles` | crates/agent-rdp-daemon/src/automation/dvc_channel.rs:483-518 | a response on the primary settles the request waiting under its id, whatever it reports, takes the entry out, and touches no other |
| `DvcRuns.CloseSettles` | crates/agent-rdp-daemon/src/automation/dvc_channel.rs:536-582 | the close of the primary settles everything that waits |
| `DvcRuns.ReleaseSettles` | crates/agent-rdp-daemon/src/automation/dvc_channel.rs:211-235 | so does its release |
| `DvcRuns.ElapseSettles` | crates/agent-rdp-daemon/src/automation/dvc_ipc.rs:341-372 | a deadline settles its own request, and its removal takes the entry out |
| `DvcRuns.LateReplyIsHeard` | crates/agent-rdp-daemon/src/automation/dvc_channel.rs:483-518 | a response nobody waits for is only a sign of life |
| `DvcRuns.OthersAreIgnored` | crates/agent-rdp-daemon/src/automation/dvc_channel.rs:483-518 | a response on any other channel changes nothing |
| `DvcRuns.NoiseIsIgnored` | crates/agent-rdp-daemon/src/automation/dvc_channel.rs:519-534 | anything else changes nothing |
| `DvcRuns.RegisteredIff` | crates/agent-rdp-daemon/src/automation/dvc_ipc.rs:286-329 | a request is accepted exactly when there is a primary, the sender takes it, and its id is free; then it waits under that id |
| `DvcRuns.RefusedBecause` | crates/agent-rdp-daemon/src/automation/dvc_ipc.rs:289-316 | why a request is refused, in order |
| `DvcRuns.FirstOpenerWins` | crates/agent-rdp-daemon/src/automation/dvc_channel.rs:319-345 | the first to open is the primary, whoever opens while there is one an extra |
| `DvcRuns.HelloMarks` | crates/agent-rdp-daemon/src/automation/dvc_channel.rs:386-481 | a recorded handshake starts the time of the agent anew; a refused build is counted, and leaves no primary if it was that |
| `DvcRuns.StepKeepsNoClash` | crates/agent-rdp-daemon/src/automation/dvc_ipc.rs:366-372 | no step brings a waiting request and an expired one under one id, if callers do not reuse an id whose expired entry is still to be removed |
| `DvcRuns.PatientRequestsAreNeverOrphaned` | crates/agent-rdp-daemon/src/automation/dvc_ipc.rs:285-372 | with such callers the last of these ends never happens |
| `DvcRuns.OrphanIff` | crates/agent-rdp-daemon/src/automation/dvc_ipc.rs:366-372 | a waiting request can be cut off by another one's deadline if and only if an expired request not yet removed used its id |
| `DvcRuns.RetryWithSameKeyIsOrphaned` | crates/agent-rdp-daemon/src/automation/dvc_ipc.rs:366-372 | a run in which that happens |
| `DvcRuns.BothAgentsTurnedAway` | crates/agent-rdp-daemon/src/automation/dvc_channel.rs:386-481 | a run after which two open agents, one of the accepted build, were both told to exit and none is primary |
| `KeepAlive.KeepAliveWatch.RecordSend` | crates/agent-rdp-daemon/src/rdp_session.rs:284-297 | the whole new state and the verdict |
| `KeepAlive.KeepAliveWatch.RecordSendFailure` | crates/agent-rdp-daemon/src/rdp_session.rs:309-312 | the whole new state and the verdict |
| `KeepAlive.FlagsDecide` | crates/agent-rdp-daemon/src/rdp_session.rs:1358-1370 | what the flags say at a send is what the history says: whether the previous send was answered, and promptly on a quiet link |
| `KeepAlive.TracksSend` | crates/agent-rdp-daemon/src/rdp_session.rs:1339-1400 | a send keeps flags and counters true of the history, and its verdict is the one the history calls for |
| `KeepAlive.TracksFailedTick` | crates/agent-rdp-daemon/src/rdp_session.rs:1401-1423 | a failed or unencodable send likewise |
| `KeepAlive.TracksInbound` | crates/agent-rdp-daemon/src/rdp_session.rs:1596-1613 | a received PDU likewise |
| `KeepAlive.TracksTraffic` | crates/agent-rdp-daemon/src/rdp_session.rs:1423-1595 | a frame the client sends likewise |
| `KeepAlive.FrameProcessor.constructor` | crates/agent-rdp-daemon/src/rdp_session.rs:1257-1330 | starts true of the empty history |
| `KeepAlive.FrameProcessor.OnTick` | crates/agent-rdp-daemon/src/rdp_session.rs:1339-1423 | verdict at a tick: silent exactly when some send saw a prompt answer on a quiet link and the last three sends were all unanswered; unwritable exactly when three writes in a row failed |
| `KeepAlive.FrameProcessor.OnInbound` | crates/agent-rdp-daemon/src/rdp_session.rs:1596-1613 | no verdict, and the flags stay true of the history |
| `KeepAlive.FrameProcessor.OnTraffic` | crates/agent-rdp-daemon/src/rdp_session.rs:1423-1595 | no verdict, and the flags stay true of the history |
| `KeepAlive.FrameProcessor.Handle` | crates/agent-rdp-daemon/src/rdp_session.rs:1379-1400 | silent exactly when the history is and the kill switch is off, dead exactly when three writes in a row failed, whatever the switch |
| `KeepAlive.RunFrameProcessor` | crates/agent-rdp-daemon/src/rdp_session.rs:1257-1693 | over every trace the loop ends at the first wake-up at which the server is silent and the switch off, or the transport cannot be written, with that verdict, and at no other |
| `KeepAlive.SilentAfterThree` | crates/agent-rdp-daemon/src/rdp_session.rs:284-297 | a trace that ends silent, and does not one refresh earlier |
| `KeepAlive.DeadAfterThree` | crates/agent-rdp-daemon/src/rdp_session.rs:309-312 | three failed writes in a row are a dead transport, two are not |
| `KeepAlive.RunOfThree` | crates/agent-rdp-daemon/src/rdp_session.rs:284-297 | a count of three means three consecutive unanswered sends in the history |
| `KeepAlive.ThreeMakeARun` | crates/agent-rdp-daemon/src/rdp_session.rs:284-297 | and the other way round |
| `KeepAlive.LastFrameTells` | crates/agent-rdp-daemon/src/rdp_session.rs:1358-1362 | comparing the last frame's time with the last send's tells whether anything arrived since |
| `KeepAlive.SilentForThreePeriods` | crates/agent-rdp-daemon/src/rdp_session.rs:276-297 | with sends a period apart, at a silence verdict every PDU so far was recorded three periods ago or carries the very clock reading of a refresh sent before it |
| `KeepAlive.TiedIsNotAnAnswer` | crates/agent-rdp-daemon/src/rdp_session.rs:1358-1362 | such a PDU is not counted as an answer |
| `KeepAlive.NothingSince` | crates/agent-rdp-daemon/src/rdp_session.rs:284-297 | between consecutive unanswered sends nothing was recorded later than the reading of the first |
| `Calendar.DateOfDay` | crates/agent-rdp-daemon/src/timefmt.rs:7-18 | for every day number, before the epoch too, the result is a valid date whose day number in the ordinary calendar is that day |
| `Calendar.DayOfDate` | crates/agent-rdp-daemon/src/timefmt.rs:7-18 | the converse: every valid date is the result for its day number |
| `Calendar.ConsecutiveDays` | crates/agent-rdp-daemon/src/timefmt.rs:7-18 | consecutive days map to consecutive dates |
| `Calendar.NextDay` | crates/agent-rdp-daemon/src/timefmt.rs:7-18 | the successor of a date has the next day number |
| `Calendar.EarlierIsSmaller` | crates/agent-rdp-daemon/src/timefmt.rs:7-18 | day numbers order dates as the calendar does |
| `Calendar.YearOfEra` | crates/agent-rdp-daemon/src/timefmt.rs:11-11 | the year-of-era division finds the March-based year of every day of an era |
| `Calendar.MonthOfYear` | crates/agent-rdp-daemon/src/timefmt.rs:14-14 | the month division finds the month of every day of such a year |
| `TimeStamps.InRange` | crates/agent-rdp-daemon/src/timefmt.rs:20-29 | every field of a stamp is valid, for every instant |
| `TimeStamps.SecondOfParts` | crates/agent-rdp-daemon/src/timefmt.rs:20-29 | the fields determine the second |
| `TimeStamps.StampReads` | crates/agent-rdp-daemon/src/timefmt.rs:31-35 | up to the end of 9999 a stamp has the shape YYYYMMDD-HHMMSS and every field reads as its number |
| `TimeStamps.FourDigitYears` | crates/agent-rdp-daemon/src/timefmt.rs:32-35 | the year has four digits up to the last second of 9999 and not after |
| `TimeStamps.NamesSortByTime` | crates/agent-rdp-daemon/src/timefmt.rs:31-35 | up to then names that start with a stamp sort by second first and by the rest only within a second |
| `TimeStamps.StampsSortByTime` | crates/agent-rdp-daemon/src/timefmt.rs:31-35 | stamps sort as their seconds do |
| `TimeStamps.FiveDigitsSortFirst` | crates/agent-rdp-daemon/src/timefmt.rs:31-35 | the first second of 10000 sorts before the last of 9999 |
| `TimeStamps.SortedBelow` | crates/agent-rdp-daemon/src/timefmt.rs:31-35 | stamps of all instants before a limit sort by time if and only if the limit is not past the end of 9999 |
| `Lexical.PaddedOrder` | crates/agent-rdp-daemon/src/timefmt.rs:34-34 | zero-padded numbers that fit their field sort as numbers |
| `Diagnostics.DiagnosticsDir.Prune` | crates/agent-rdp-daemon/src/diagnostics.rs:260-278 | the exact set of files left, whichever deletions fail |
| `Diagnostics.StemsAfterPrune` | crates/agent-rdp-daemon/src/diagnostics.rs:260-278 | the records left are those of the min(n, keep) lexically last stems, and those that could not be deleted |
| `Diagnostics.PictureGoesIff` | crates/agent-rdp-daemon/src/diagnostics.rs:260-278 | a picture is taken away if and only if its record is there, it is not one of the newest, and the deletion works |
| `Diagnostics.StrayPictureStays` | crates/agent-rdp-daemon/src/diagnostics.rs:250-278 | in every directory a picture without a record survives every pruning |
| `Diagnostics.DiagnosticsDir.Capture` | crates/agent-rdp-daemon/src/diagnostics.rs:249-256 | after every completed capture the directory holds the newest of all captures ever completed, and besides only what could not be deleted |
| `Diagnostics.StepIsSafe` | crates/agent-rdp-daemon/src/diagnostics.rs:249-278 | any single write, listing or deletion of overlapping captures keeps the newest captures, and dooms only older ones |
| `Diagnostics.NewestAreNeverDeleted` | crates/agent-rdp-daemon/src/diagnostics.rs:249-278 | however captures and prunings overlap, and whichever deletions fail, the record of none of the newest captures is deleted |
| `Diagnostics.NewestPicturesStay` | crates/agent-rdp-daemon/src/diagnostics.rs:249-278 | nor is a picture, once written, of a capture that is among the newest at the end |
| `Diagnostics.NewestIsUnique` | crates/agent-rdp-daemon/src/diagnostics.rs:258-278 | there is only one set of stems pruning may leave |
| `Diagnostics.NewestOfPart` | crates/agent-rdp-daemon/src/diagnostics.rs:258-278 | pruning again and again leaves what pruning once at the end would |
| `Diagnostics.NewestOfMore` | crates/agent-rdp-daemon/src/diagnostics.rs:258-278 | a new capture brings back nothing dropped before |
| `Diagnostics.NothingNewerIsDropped` | crates/agent-rdp-daemon/src/diagnostics.rs:157-162 | no dropped capture is newer, to the second, than one kept, up to the end of 9999 |
| `Diagnostics.NewestCaptureDropped` | crates/agent-rdp-daemon/src/diagnostics.rs:258-278 | in the year 10000 the newest capture is dropped and an older one kept |
| `Diagnostics.KeepsTheNewestIff` | crates/agent-rdp-daemon/src/diagnostics.rs:258-278 | pruning keeps the newest for all captures before a limit if and only if the limit is not past the end of 9999 |
| `KeyNames.SplitIsExact` | crates/agent-rdp-daemon/src/handlers/keyboard.rs:215-217 | splitting at plus signs loses nothing and leaves no plus sign |
| `KeyNames.ParseCombination` | crates/agent-rdp-daemon/src/handlers/keyboard.rs:216-230 | the keys of all names in order, a direct name its one key, a shifted one Shift and then the key of its base; or the first name that has neither |
| `KeyNames.ParsedLength` | crates/agent-rdp-daemon/src/keymap.rs:25-59 | a combination that parses has no empty name and one or two keys a name |
| `KeyNames.PressesAreCovered` | crates/agent-rdp-protocol/src/request.rs:290-304 | the estimate for the presses covers what they sleep, and is reached exactly by sequences of shifted symbols alone |
| `KeyNames.EstimateCovers` | crates/agent-rdp-protocol/src/request.rs:287-306 | for every sequence that parses the estimate is at least what it sleeps, saturation included, with equality exactly for shifted symbols |
| `KeyNames.AdmittedIsBounded` | crates/agent-rdp-protocol/src/request.rs:325-368 | every admitted sequence that parses sleeps at most 30000ms |
| `KeyNames.AdmittedIff` | crates/agent-rdp-protocol/src/request.rs:325-368 | exactly which requests are admitted |
| `KeyNames.EachCostsSomething` | crates/agent-rdp-protocol/src/request.rs:290-304 | no combination is estimated below a single key |
| `Keyboard.PressDown` | crates/agent-rdp-daemon/src/handlers/keyboard.rs:263-274 | keys go down in order until one is reported lost |
| `Keyboard.ReleaseKeys` | crates/agent-rdp-daemon/src/handlers/keyboard.rs:281-291 | exactly the given keys are released in reverse, whatever is lost; the first error is kept |
| `Keyboard.PressCombination` | crates/agent-rdp-daemon/src/handlers/keyboard.rs:250-296 | what is sent, what is slept and which error is reported, for every pattern of lost sends |
| `Keyboard.HeldAfter` | crates/agent-rdp-daemon/src/handlers/keyboard.rs:250-296 | afterwards exactly those keys are held that were held before or went down, less those of which a release landed - a send reported lost may land all the same |
| `Keyboard.NothingStuckIff` | crates/agent-rdp-daemon/src/handlers/keyboard.rs:250-296 | no key that went down stays held if and only if each has a release that landed |
| `Keyboard.NothingStuckWhen` | crates/agent-rdp-daemon/src/handlers/keyboard.rs:250-296 | for different keys: if and only if no press reported lost landed after all, and every release landed |
| `Keyboard.LostPressStaysHeld` | crates/agent-rdp-daemon/src/handlers/keyboard.rs:263-291 | a press whose reply comes too late lands and is never released |
| `Keyboard.OneLostPress` | crates/agent-rdp-daemon/src/handlers/keyboard.rs:263-291 | with one key: one press in the log, an error for the caller, and the key held |
| `Keyboard.CleanCombination` | crates/agent-rdp-daemon/src/handlers/keyboard.rs:250-296 | without an error: down in order, up in reverse, nothing left held |
| `Keyboard.ShiftGoesFirst` | crates/agent-rdp-daemon/src/keymap.rs:33-58 | in a clean combination the key of a shifted name goes down right after a Shift of its own |
| `Keyboard.Ms` | crates/agent-rdp-daemon/src/handlers/keyboard.rs:250-296 | a combination sleeps 20ms a key that went down, and 50ms more exactly if all did |
| `Keyboard.ParseKeys` | crates/agent-rdp-daemon/src/handlers/keyboard.rs:83-94 | every combination is parsed before any is pressed, or the error of the first that does not parse |
| `Keyboard.PressNext` | crates/agent-rdp-daemon/src/handlers/keyboard.rs:108-119 | one combination with the pause before it |
| `Keyboard.PressAll` | crates/agent-rdp-daemon/src/handlers/keyboard.rs:108-120 | the sequence stops at the first combination that fails and reports how many came before it |
| `Keyboard.PressSequence` | crates/agent-rdp-daemon/src/handlers/keyboard.rs:77-121 | refused without a send when invalid; otherwise within 30000ms of sleep, with the exact log |
| `Turns.CleanTurns` | crates/agent-rdp-daemon/src/handlers/keyboard.rs:108-120 | actions in turn without an error leave none of their keys held |
| `Turns.FailedTurns` | crates/agent-rdp-daemon/src/handlers/keyboard.rs:108-120 | if one fails, at most its own keys stay held |
| `Keyboard.CleanSequence` | crates/agent-rdp-daemon/src/handlers/keyboard.rs:108-120 | a sequence without an error leaves none of its keys held |
| `Keyboard.FailedSequence` | crates/agent-rdp-daemon/src/handlers/keyboard.rs:108-120 | one that fails leaves held at most keys of the combination that failed, presses that land late included |
| `Typing.UnicodeKeyEvents` | crates/agent-rdp-daemon/src/rdp_session.rs:2023-2030 | a press and a release for every unit |
| `Typing.EventsAreReceived` | crates/agent-rdp-daemon/src/rdp_session.rs:2023-2030 | those events type exactly these units |
| `Typing.SentIsDelivered` | crates/agent-rdp-daemon/src/rdp_session.rs:1118-1144 | the batches sent deliver the text so far, each unit once and in order |
| `Typing.AllIsDelivered` | crates/agent-rdp-daemon/src/rdp_session.rs:1118-1147 | and all of it at the end |
| `Typing.BatchFits` | crates/agent-rdp-daemon/src/rdp_session.rs:1093-1095 | every batch fits into one packet |
| `Typing.ReportedIsDelivered` | crates/agent-rdp-daemon/src/rdp_session.rs:1126-1140 | the count a timeout reports is exactly the prefix delivered |
| `Typing.LostBatchIsDelivered` | crates/agent-rdp-daemon/src/rdp_session.rs:1141-1141 | after a send that failed the text is delivered up to that batch, or with it if it landed |
| `Typing.SendText` | crates/agent-rdp-daemon/src/rdp_session.rs:1090-1147 | the exact log and sleep of every outcome; every send begins before its deadline, and once one has passed the call gives up, 15s beyond the requested pacing |
| `Typing.Pace` | crates/agent-rdp-daemon/src/rdp_session.rs:1118-1124 | a pause moves the deadline by as much as was asked to sleep |
| `Typing.EstimateIsExact` | crates/agent-rdp-protocol/src/request.rs:313-319 | the estimate for typing is what it sleeps, up to saturation; admitted if and only if that is within the limit |
| `Typing.HandleType` | crates/agent-rdp-daemon/src/handlers/keyboard.rs:21-40 | types every text with the pacing asked for, validated or not; 65 units an hour apart are slept through although the validation refuses them; what a failure says |
| `Typing.AnHourOfTyping` | crates/agent-rdp-protocol/src/request.rs:313-340 | 65 units an hour apart cost an hour and are refused by the validation |
| `Typing.PacingGrows` | crates/agent-rdp-protocol/src/request.rs:313-319 | a call that ends early sleeps no longer |
| `LineReader.BufReader.Consume` | crates/agent-rdp/src/ipc_client.rs:184-192 | drops that many bytes from the front of the stream |
| `LineReader.GatherLine` | crates/agent-rdp/src/ipc_client.rs:177-206 | the loop gathers exactly the first line, or reports it too long or the stream broken, before the bytes are looked at as text |
| `LineReader.ReadLineCapped` | crates/agent-rdp/src/ipc_client.rs:169-209 | exactly when it returns the line, and each of the three errors, from the bytes alone; unless the line is too long the reader is left exactly behind it; if it is, no more than the cap and the longest piece were taken |
| `LineReader.FirstLineIs` | crates/agent-rdp/src/ipc_client.rs:184-188 | the first line is the shortest start ending in a newline, or everything |
| `LineReader.LinesOfFramed` | crates/agent-rdp/src/ipc_client.rs:162-209 | messages written one per line are read back one by one |
| `LineReader.LinesAreAll` | crates/agent-rdp/src/ipc_client.rs:162-209 | reading line by line loses nothing of any stream |
| `Region.ClampIsIntersection` | crates/agent-rdp-protocol/src/request.rs:436-452 | clamping is exactly intersection with the screen, and absent if and only if that is empty |
| `Region.ClampAgain` | crates/agent-rdp-protocol/src/request.rs:436-452 | clamping twice is clamping once |
| `Region.UnchangedIff` | crates/agent-rdp-protocol/src/request.rs:436-452 | a region is left alone if and only if it is on the screen and not empty |
| `Region.SamePixels` | crates/agent-rdp-protocol/src/request.rs:436-452 | no other rectangle is that intersection |
| `Region.CropIsUnique` | crates/agent-rdp-daemon/src/handlers/imaging.rs:23-43 | a crop is determined byte for byte by its pixels |
| `Region.RowsAreCrop` | crates/agent-rdp-daemon/src/rdp_session.rs:2013-2018 | copying row by row gives that crop |
| `Region.CopyRgbaRegion` | crates/agent-rdp-daemon/src/rdp_session.rs:2001-2020 | refuses exactly regions that are empty or reach off the screen, and otherwise returns the crop, for every framebuffer size |
| `Region.CopyClamped` | crates/agent-rdp-daemon/src/handlers/imaging.rs:23-43 | the copy of a clamped region never fails and is the crop at the reported offset |
| `IpcClient.IpcClient.Send` | packages/agent-rdp/src/client.ts:117-161 | refused when not connected or desynchronised; otherwise waits in the place of whoever waited |
| `IpcClient.IpcClient.ProcessBuffer` | packages/agent-rdp/src/client.ts:92-112 | takes every complete line out of the buffer |
| `IpcClient.IpcClient.OnData` | packages/agent-rdp/src/client.ts:73-76 | the whole new state |
| `IpcClient.IpcClient.OnTimeout` | packages/agent-rdp/src/client.ts:133-146 | retires the connection and settles the call |
| `IpcClient.IpcClient.OnClose` | packages/agent-rdp/src/client.ts:78-85 | settles the waiting call and disconnects |
| `IpcRuns.Feed` | packages/agent-rdp/src/client.ts:73-112 | any piece of the stream, whatever lines it completes, hands replies only to the calls they answer |
| `IpcRuns.EveryCallGetsItsOwnReply` | packages/agent-rdp/src/client.ts:92-161 | with a daemon that answers in order and a caller that awaits each call, no call gets another's reply, for every cut of the stream and every timeout and close |
| `IpcRuns.NoReplyIsLost` | packages/agent-rdp/src/client.ts:92-112 | only the last call can be unsettled, and then its reply has not fully arrived |
| `IpcRuns.OutcomesAreFinal` | packages/agent-rdp/src/client.ts:92-161 | no step changes the outcome of a call, overlapping sends or not |
| `IpcRuns.HowCallsEnd` | packages/agent-rdp/src/client.ts:73-146 | an unsettled call ends by a line or a close event while it is the one that waits, or by its own timer |
| `IpcRuns.SendDecides` | packages/agent-rdp/src/client.ts:117-161 | when a send is refused and why; otherwise a new call waits, alone |
| `IpcRuns.TimeoutSettles` | packages/agent-rdp/src/client.ts:133-146 | a timeout settles its call and every later call is refused |
| `IpcRuns.CloseSettles` | packages/agent-rdp/src/client.ts:78-85 | a close event settles the call that waits; closing leaves it to its reply, its timer or that event |
| `IpcRuns.OverlapTakesTheReply` | packages/agent-rdp/src/client.ts:129-131 | a second send while a call waits is settled with the reply to the first |
| `IpcRuns.SendMixesUpIff` | packages/agent-rdp/src/client.ts:117-131 | on a live connection a further send makes some awaiting run mix up replies if and only if a call is still waiting |
| `Utf8.RoundTrip` | packages/agent-rdp/src/client.ts:73-74 | every text encoded in UTF-8 is well-formed and decodes to itself |
| `Utf8.WellFormedIff` | crates/agent-rdp/src/ipc_client.rs:205-206 | well-formed is exactly what encoding some text gives |
| `Utf8.CutOffIsOne` | packages/agent-rdp/src/client.ts:73-74 | a character cut off is one replacement character |
| `Utf8.DecodeAroundNewline` | packages/agent-rdp/src/client.ts:73-74 | in the lenient decoding a newline is never part of anything else |
| `Utf8.SomeCutShows` | packages/agent-rdp/src/client.ts:73-74 | well-formed text that is not ASCII has a cut after which decoding the two pieces gives another text |
| `IpcText.IntactIff` | packages/agent-rdp/src/client.ts:73-74 | for any decoding: a reply is intact in all pieces if and only if it is in any two pieces of a start of it |
| `IpcText.Utf8IntactIff` | packages/agent-rdp/src/client.ts:73-74 | a reply in well-formed UTF-8 is handed out intact, however it is cut, if and only if every byte is below 0x80 |
| `IpcText.AcuteAccentIsLost` | packages/agent-rdp/src/client.ts:73-74 | the bytes C3 A9 arriving one by one become two replacement characters |
| `IpcText.CutReply` | packages/agent-rdp/src/client.ts:73-131 | a run in which a call gets the text of its reply cut at any place |
| `IpcText.AllWholeIff` | packages/agent-rdp/src/client.ts:73-131 | in every run every call gets the text of its own reply if and only if all replies are ASCII |
| `IpcClient.IpcClient.Connect` | packages/agent-rdp/src/client.ts:55-71 | connecting replaces the socket and nothing else |
| `IpcReconnect.NextCallGets` | packages/agent-rdp/src/client.ts:55-112 | connected again after the old close event, the next call, its reply in one piece, gets what the old connection left in the buffer in front of it |
| `IpcReconnect.NewCallsGet` | packages/agent-rdp/src/client.ts:55-112 | in every run after the old close event, however the new stream is cut, the next call can only get the bytes the old connection left and its own reply behind them, and every other call only its own |
| `IpcReconnect.OwnReplyIff` | packages/agent-rdp/src/client.ts:55-112 | after the old close event and in one piece, the next call gets its own reply if and only if nothing was left in the buffer |
| `IpcReconnect.ClosedWhileWaiting` | packages/agent-rdp/src/client.ts:167-172 | closing while a call waits and connecting again before the old socket is gone changes nothing, and the next call can get the reply to the waiting one |
| `IpcReconnect.LateCloseFailsNewCall` | packages/agent-rdp/src/client.ts:78-85 | a late close event of the old socket fails the call that waits on the new one |
| `IpcReconnect.TimedOutForGood` | packages/agent-rdp/src/client.ts:117-146 | after a timeout connecting again does not help |
| `IpcReconnect.OldSocketHarms` | packages/agent-rdp/src/client.ts:78-85 | connected again before the old close event, some run fails a new call through that event |
| `IpcReconnect.WaitingReplyGoesAstray` | packages/agent-rdp/src/client.ts:73-131 | if a call was waiting, the old socket can hand its reply to the new call |
| `IpcReconnect.IntactIsUnglued` | packages/agent-rdp/src/client.ts:73-74 | where every reply stays intact, as in ASCII, none can be read as a line and as that line with something in front |
| `IpcReconnect.HarmsNewCallsIff` | packages/agent-rdp/src/client.ts:55-146 | after any run of an awaiting caller, connected again: some run fails a new call through the old close event or hands it a line not its own, if and only if no request timed out and the old socket has not closed or the buffer is not empty |

## Left out

- SessionSlot: modelled on values, because it is a protocol of concurrent tasks; one step
  is one access to shared state, so tasks interleave at every access. Initializing and
  cleaning up the automation state are single steps under its lock, and an initialization
  that fails changes nothing.
- SessionSlot: a user request that takes the session out of the slot and waits for its
  processor does so in one step.
- SessionSlot: clearing `ws_handle` and `clipboard_changed_rx` in the teardown, whose check
  is outside their locks, and the ownership check at the very end of a connect.
- ReconnectLoop: modelled on values, for the same reason. It does not say that at most one
  attempt runs at a time across loops: checking the guard and claiming the mark are two
  separate lock sections.
- DvcRuns: one message, one deadline or one removal is one step; the several lock sections
  inside the handling of one message are not interleaved with others.
- DvcChannel: the counters of round trips and consecutive failures, the status probe, and
  the encoding of messages; whether the command sender accepts a request is an input.
- KeepAlive: clock readings are inputs that never go back.
- TimeStamps: `utc_rfc3339`, which formats the same fields (section 5.6 of RFC 3339).
- Diagnostics: what triggers a capture, its rate limit, and what is in the files; a write
  either makes its file or does not. `Prune` and `Capture` are whole calls, and overlapping
  ones are interleaved by single writes, listings and deletions in `NewestAreNeverDeleted`.
- KeyNames: the scancode table, trimming and lower-casing are parameters; the sum over the
  combinations of a sequence does not overflow.
- Transport: a send that is reported lost lands at its place in the order of sends, or not at
  all.
- Typing: a text is given as its UTF-16 code units, and the time one send may take by
  itself is not bounded.
- IpcRuns: replies contain no newline, and the daemon's part is that it answers one line per
  request in order. Text is a sequence of Unicode scalar values, not of UTF-16 units.
- IpcReconnect: connecting a third time.
- TLS, CredSSP, RDP decoding, virtual-channel fragmentation, OCR, image encoding, socket
  options: libraries and I/O.
- Command line, output formatting, daemon spawning, the stream viewer, the SDK's
  controllers: wrappers around what is modelled.
- `bootstrap.rs`, `automate.rs` and `file_transfer.rs` are not part of this model.
- The SDK's own estimate of a key sequence, which differs from the daemon's.
