# Verified models of the stateful core

Dafny models of thirteen source files that keep long-lived state: terminal sessions that outlive
their clients, conversation logs and their compaction, the entity, inbox and event-log stores,
config migrations, the cron search, the pump, the async channel, and the bookkeeping of headless
runs. Each file is modelled in its own form. An object whose methods update fields is a class; a
loop is a method with invariants. Every such method is proved equal to a step of a pure
specification, and the promises of the source are proved about that specification, over every run.

`dafny verify dfyconfig.toml` checks everything.

## How the pieces fit

- **Terminal sessions** (`Prelude`, `ReplayBuffer`, `SessionProtocol`, `SessionStreams`,
  `SessionFlow`, `SessionSupervision`, `SessionTheorems`, `PersistentSession`). A `Session` holds the whole output history, the client link, the
  backpressure flow and the child. `Next` is one callback: output, attach, detach, a socket closing,
  a flushed send, the cursor timer, a child exit, a respawn, disposal. Each socket is a FIFO of
  frames with a count of delivered ones. The class keeps its output in the chunked ring and is
  proved to take the same steps. Theorems speak about `Reaches`: any legal sequence of events from
  a new session.
- **Conversations** (`Transcript`, `Doubles`, `Compaction`, `SessionStore`). Entries, both
  converters, microcompaction with its token accounting, and the log as a parent chain. Where the
  code divides or multiplies fractions, `Doubles` rounds as JavaScript does; the token estimate is
  proved to be `(2n + 6) / 7` on naturals all the same.
- **Entity store** (`Strings`, `EntityNames`, `EntityStore`, `EntityQueue`, `EntityStoreObjects`).
  Every call is a task chained on the promise that `writeTail` held. Any task may be advanced at
  any moment; once its promise has settled it reads, writes the temporary file and renames it, and
  each step may fail. That tasks exclude each other is proved from the chain. The specification is
  the in-memory store.
- **Migrations**. One run is a sequence of disk writes that may stop after any of them.
- **Cron** (`Calendar`, `Cron`). The search walks minutes of the proleptic Gregorian calendar of
  section 21.4.1 of ECMA-262 in UTC; its result is compared with the set of firing minutes.
- **Event log, inbox, pump, channel, headless helpers** (`EventLog`, `InboxStore`, `InboxObjects`,
  `Pump`, `AsyncChannel`, `HeadlessTask`, `HeadlessRegistry`).

Clocks, generated ids, I/O failures, model-written summaries and the environment's choices are
inputs of the steps. Ghost fields (`marks`, `exits`, `outcomes`, `pushed`, `delivered`, ...) record
what happened and are never read by a step.

## Where the code differs from its description

Each of these is stated as a lemma with the exact condition, or with a concrete run.

- Backpressure is safe exactly when `lowWatermarkBytes` is at least the size of one cursor message
  (`NeverStrandsIff`, `DrainingWorksIff`). Below that the flush callback of the last data frame can
  find a cursor message still queued, give up, and leave the child paused although its client is
  attached and takes everything. A detach, another attach or the close of that socket still
  resumes it (`ReleaseRestartsChild`).
- Flag and stream are meant to stay in lockstep. A child that exits while paused is respawned with
  the flag set and the stream running, and output does not pause it until the flag is cleared
  (`OutputStopsChildIff`, `RespawnRunsUnpaused`).
- A `since` beyond the tail is answered with that same number as `replayFromSeq`, although the
  stream starts at the tail (`AttachStartsAtReplayIff`, `AttachBeyondTail`).
- The percentage override is computed in doubles: 70 percent of 180000 is 125999
  (`ThresholdIsWithinOne`, `SeventyPercentLosesAToken`).
- The comment on tool sanitizing asks for a result "downstream" of its call; the code does not
  look at the order (`DownstreamIff`, `ResultBeforeCallIsAccepted`), and it keeps results without a
  call (`OrphanResultsStay`, `LoneResultStays`). The two converters agree on calls and results but
  not on every user text (`ConvertersAgreeOnTextsIff`, `TwoTextsDiffer`).
- An append on a store reopened on a non-empty file and not restored starts a new chain
  (`ChainIff`, `ReopenedAppendBreaksChain`); an append made while a summary is being written breaks
  the chain too, and that entry is never summarised nor shown again (`OverlappedCompaction`,
  `MessageDuringCompactionIsLost`).
- `nextCronFire` is documented as null only when unparseable; it is also null when nothing fires
  within 366 days (`LeapDaySearchGivesUp`).
- In the event log a failed disk append still consumes a sequence number (`ContiguousIff`,
  `FailedAppendLeavesGap`, `ReopenRestoresIff`, `ReopeningDiffers`); a limit below one returns one entry
  (`LimitHoldsIff`, `ZeroLimitReturnsOne`); a page past the last can return old entries because a
  negative slice end wraps (`PagePastEnd`, `PageThreeOfTwo`); a buffer of size zero is reloaded with
  the whole file.
- The pump documents a backoff after errors; a failing `runNow` leaves the timer that was already
  armed, with the plain interval (`StaleIff`, `FailedRunNowKeepsOldDelay`). Arming ignores `started`
  (`LiveIff`, `ManualRunArmsUnstarted`).
- A read time of zero or less is kept by the in-memory inbox and dropped by the overlay
  (`StepRefinesIff`, `ZeroReadTimeDiffers`).
- Migrations survive crashes exactly with idempotent bodies and distinct ids (`CrashSafeIff`, with
  the runs `NonIdempotentBodyRunsTwice` and `RepeatedIdLosesABody`); the journal alone needs only
  the ids (`JournalSafeIff`). Pruning the task registry needs distinct ids (`RunningLostIff`,
  `SharedIdLosesAll`).
- A tail sink with a budget of zero keeps everything, because `subarray(-0)` is the whole buffer
  (`TailSink.Text`).

## Model

| member | source | states |
|---|---|---|
| `SessionTheorems.ReceivedIsHistorySlice` | src/workspaces/persistent-session.ts:357-381 | Over every run, the bytes flushed to a client since its last attach are one gapless stretch of the output starting where that attach said; once an attached, open socket is drained they reach the tail. |
| `SessionTheorems.AnnouncedSeqIsExact` | src/workspaces/persistent-session.ts:584-590 | Over every run, a seq in an `attached` or `cursor` message counts exactly the bytes queued ahead of it, so it arrives after all bytes below it and none above. |
| `SessionTheorems.AttachedMessageIsTrue` | src/workspaces/persistent-session.ts:357-380 | Over every run, `replayFromSeq` is where the stream starts exactly when the client did not ask for bytes beyond the tail of that moment; `scrollbackTruncated` holds exactly when bytes the client asked for are gone; without it a replay starts at `since`. |
| `SessionTheorems.AttachStartsAtReplayIff` | src/workspaces/persistent-session.ts:361-380 | Read before the attach: the bytes queued are the output from `replayFromSeq` on exactly when `since` is absent or at most the tail. |
| `SessionTheorems.AttachBeyondTail` | src/workspaces/persistent-session.ts:361-377 | A concrete attach beyond the tail: announced from 5, streamed from 0. |
| `SessionTheorems.ReattachRebuildsStream` | src/workspaces/persistent-session.ts:305-381 | Bytes kept up to a noted seq on one socket, followed by everything received after a reattach answered with `replayFromSeq` equal to it and within the tail, are one stretch of the output, at any later point of the run. |
| `SessionTheorems.ReattachIsSeamlessIff` | src/workspaces/persistent-session.ts:357-380 | Reattaching with any seq noted earlier rebuilds the whole output exactly when at most `maxBytes` were emitted since, and `scrollbackTruncated` is set in exactly the other case. |
| `SessionTheorems.AttachQueuesSlice` | src/workspaces/persistent-session.ts:361-380 | An accepted attach on an open socket queues exactly the ring slice since the request, closed by one `attached` message with its bounds. |
| `SessionTheorems.CursorNeverLags` | src/workspaces/persistent-session.ts:479-481 | Over every run, some seq announced on the attached, open socket lags the tail by less than 64 KiB. |
| `SessionTheorems.NeverStrandsIff` | src/workspaces/persistent-session.ts:452-495 | No run leaves a live child paused without the `paused` flag, an attached client and an outstanding data send (or a socket about to report its close) if and only if one cursor message fits under the low watermark. |
| `SessionTheorems.StrandingRun` | src/workspaces/persistent-session.ts:459-466 | With a smaller watermark, the concrete four-event run that strands the child. |
| `SessionTheorems.ReleaseRestartsChild` | src/workspaces/persistent-session.ts:349-354 | Whatever the watermarks, in every reachable undisposed state a detach, an accepted attach, or the close of the attached socket leaves the stream running and the flag clear. |
| `SessionTheorems.DrainRestartsChild` | src/workspaces/persistent-session.ts:454-467 | With the watermark condition, in every reachable state flushing the attached socket empty leaves a live child running. |
| `SessionTheorems.DrainingWorksIff` | src/workspaces/persistent-session.ts:454-467 | Flushing the attached socket empty restarts the child in every reachable state if and only if one cursor message fits under the low watermark. |
| `SessionTheorems.OutputStopsChildIff` | src/workspaces/persistent-session.ts:469-476 | In every reachable state, output that leaves at least `highWatermarkBytes` queued stops the child exactly unless it was respawned while the flag was set and the flag was never cleared since; below the mark nothing changes. |
| `SessionTheorems.LapsedIff` | src/workspaces/persistent-session.ts:484-495 | Over every run, flag and stream are out of lockstep exactly after such a respawn, and a stopped stream always has the flag. |
| `SessionTheorems.RespawnRunsUnpaused` | src/workspaces/persistent-session.ts:214-220 | A concrete legal run to that exception: live child, flag set, stream running, queue over the high watermark. |
| `SessionTheorems.ChildOrTimer` | src/workspaces/persistent-session.ts:197-226 | Every undisposed session has exactly one of a live child and a pending respawn; the cursor timer runs exactly while a client is attached; a disposed session has neither timer nor client. |
| `SessionTheorems.BreakerOpensIff` | src/workspaces/persistent-session.ts:197-207 | An exit opens the breaker exactly when the third exit before it is less than 30 s old, although old times are discarded on every exit. |
| `SessionTheorems.LiveSessionExitsAreSpread` | src/workspaces/persistent-session.ts:197-207 | Over every run with a non-decreasing clock, any exit a live session survived is at least 30 s after the third exit before it. |
| `SessionTheorems.AttachIsLetInIff` | src/workspaces/persistent-session.ts:312-349 | Read off the state and the claim alone: an attach is let in exactly when the session is alive and the claim is absent, forces a takeover, meets no controller or is the controller's own; then the newcomer is attached and the displaced socket closed, otherwise the answer names the owner. |
| `SessionTheorems.RunKeepsControllerAttached` | src/workspaces/persistent-session.ts:397-402 | Over every run nobody controls a session without being attached to it. |
| `SessionTheorems.HistoryIsOutput` | src/workspaces/persistent-session.ts:447-450 | Over every run the history of a live session is its seed followed by every output, in order. |
| `SessionTheorems.EventSends` | src/workspaces/persistent-session.ts:567-590 | Event by event, exactly the frames the attached client is sent: output with a cursor after 65536 bytes, a cursor on a tick after news, and the lifecycle and exit messages. |
| `SessionTheorems.QueuedBytes` | src/workspaces/persistent-session.ts:459-469 | The buffered amount is the output in flight plus every queued control message. |
| `SessionTheorems.OldExitsAreIgnored` | src/workspaces/persistent-session.ts:171-178 | After a respawn, at any later point of the run, an exit of an older child changes nothing. |
| `SessionTheorems.RejectedAttachChangesNothing` | src/workspaces/persistent-session.ts:312-335 | Control changes hands only by a takeover, an absent claim, the same id, or when no claiming client is attached; a locked attach closes its own socket and touches nothing else. |
| `SessionTheorems.AttachKicksPrevious` | src/workspaces/persistent-session.ts:337-349 | An accepted attach makes the newcomer and its normalised claim the controller, closes the displaced socket and no other, sends nothing to anyone but the newcomer, and leaves the history and the child alone. |
| `SessionTheorems.OneClientAtATime` | src/workspaces/persistent-session.ts:337-349 | Over every run without a manual detach, at most one socket ever attached is still open, and it is the attached one. |
| `SessionTheorems.LockHolds` | src/workspaces/persistent-session.ts:301-335 | Over every run in which a controller neither leaves nor is taken over, and only others with claims try to attach, it keeps socket and control until disposal. |
| `SessionTheorems.DisposedIsFinal` | src/workspaces/persistent-session.ts:416-448 | After disposal no event records output, sends a frame, attaches a client or starts a child. |
| `SessionTheorems.EndedIff` | src/workspaces/persistent-session.ts:194-228 | Over every run a session is over exactly when it was disposed of, a respawn failed, or four exits of its child came within 30 s. |
| `SessionTheorems.EndReleasesClient` | src/workspaces/persistent-session.ts:416-445 | Whatever ends a session closes its client, frees the control and records nothing; other sockets are untouched. |
| `SessionTheorems.LostPeerGetsNothing` | src/workspaces/persistent-session.ts:567-574 | A client that is gone is sent nothing more, whatever events follow. |
| `SessionStreams.StepKeepsStreams` | src/workspaces/persistent-session.ts:447-482 | Every event keeps every socket's stream an exact slice of the history with exact announced seqs. |
| `SessionFlow.StepKeepsFlow` | src/workspaces/persistent-session.ts:447-495 | With the watermark condition, every event keeps a paused child resumable: at most one up-to-date cursor message is queued behind the send whose callback will resume it. |
| `SessionFlow.RunKeepsPresent` | src/workspaces/persistent-session.ts:534-540 | Over every run, the close event of the attached socket is still to come. |
| `SessionSupervision.ExitTimes` | src/workspaces/persistent-session.ts:197-200 | The filtered exit times are the recent suffix of all exits, and more than three remain exactly when the third exit back is inside the window. |
| `SessionTheorems.HistoryGrows` | src/workspaces/persistent-session.ts:447-450 | Output once emitted is never rewritten. |
| `PersistentSessions.PersistentSession.constructor` | src/workspaces/persistent-session.ts:112-134 | A new object is the initial state whose history is the seed bytes. |
| `PersistentSessions.PersistentSession.AttachClient` | src/workspaces/persistent-session.ts:305-394 | The object takes the protocol's attach step, including both rejections and their owners. |
| `PersistentSessions.PersistentSession.DetachClient` | src/workspaces/persistent-session.ts:397-414 | The object takes the protocol's detach step. |
| `PersistentSessions.PersistentSession.DisposeSession` | src/workspaces/persistent-session.ts:416-445 | The object takes the protocol's dispose step. |
| `PersistentSessions.PersistentSession.HandleOutput` | src/workspaces/persistent-session.ts:447-482 | Append to the ring, send, pause at the high watermark, cursor after 64 KiB: the object takes the protocol's output step. |
| `PersistentSessions.PersistentSession.HandleFlushed` | src/workspaces/persistent-session.ts:454-467 | The send callback takes the protocol's flush step. |
| `PersistentSessions.PersistentSession.ResumeChild` | src/workspaces/persistent-session.ts:487-495 | Flag and stream are cleared together, or not at all. |
| `PersistentSessions.PersistentSession.HandleSocketClosed` | src/workspaces/persistent-session.ts:534-540 | Only the current socket's close detaches. |
| `PersistentSessions.PersistentSession.SendCursor` | src/workspaces/persistent-session.ts:584-590 | A cursor is sent only when the tail moved, and records that tail even if the socket no longer accepts it. |
| `PersistentSessions.PersistentSession.SendControlMessage` | src/workspaces/persistent-session.ts:567-575 | Control messages go only to an attached, open socket. |
| `PersistentSessions.PersistentSession.HandleChildExit` | src/workspaces/persistent-session.ts:171-212 | The object takes the protocol's exit step: stale children ignored, then respawn or breaker. |
| `PersistentSessions.PersistentSession.Respawn` | src/workspaces/persistent-session.ts:214-226 | The object takes the protocol's respawn step, including a failed spawn. |
| `PersistentSessions.PersistentSession.DumpReplayBuffer` | src/workspaces/persistent-session.ts:290-292 | The dump is the last `maxBytes` bytes of everything ever emitted. |
| `ReplayBuffers.ReplayBuffer.Create` | src/workspaces/replay-buffer.ts:34-36 | Rejects exactly the non-positive capacities. |
| `ReplayBuffers.ReplayBuffer.Append` | src/workspaces/replay-buffer.ts:50-55 | Whatever the chunking, the ring afterwards holds exactly the newest `maxBytes` bytes of the extended history. |
| `ReplayBuffers.ReplayBuffer.Evict` | src/workspaces/replay-buffer.ts:81-96 | Evicting whole and partial chunks restores the capacity and keeps the newest bytes. |
| `ReplayBuffers.ReplayBuffer.Since` | src/workspaces/replay-buffer.ts:57-79 | The chunk scan returns the slice of the whole history from the larger of the request and the head, for any request. |
| `ReplayBuffers.SliceCompletesPrefix` | src/workspaces/replay-buffer.ts:14-27 | A prefix of length k and the slice since k make the whole history exactly when the effective seq is k, that is, when at most `maxBytes` follow k. |
| `Transcripts.SanitizeFacts` | src/core/session.ts:386-412 | The sequence of all texts, calls and results after sanitizing is the one before with exactly the unanswered calls removed; every call left is paired; sanitizing is idempotent. |
| `Transcripts.OrphanResultsStay` | src/core/session.ts:386-412 | Results have calls in the output exactly when they had them in the input. |
| `Transcripts.LoneResultStays` | src/core/session.ts:397-411 | A concrete result without a call passes unchanged. |
| `Transcripts.DownstreamIff` | src/core/session.ts:385-395 | Every call of the output has a result in a later message exactly when every call answered anywhere in the input is answered in a later message. |
| `Transcripts.ResultBeforeCallIsAccepted` | src/core/session.ts:385-395 | The input that breaks it: a result before its call is kept, and so is the call. |
| `Transcripts.ConvertersAgree` | src/core/session.ts:488-538 | Both converters keep the same sequence of calls, with ids, names and argument texts, and the same sequence of results. |
| `Transcripts.ConvertersAgreeOnTextsIff` | src/core/session.ts:325-349 | Both converters say the same texts with the same speakers exactly when no user entry of blocks has an empty text, several texts, or a text beside a tool result. |
| `Transcripts.TwoTextsDiffer` | src/core/session.ts:341-348 | One user entry of two texts: one joined text for the one format, two items for the other. |
| `Transcripts.ConversationIsLogged` | src/core/session.ts:313-383 | The model conversation is, read off the blocks of the log, every text, call (id, name, input) and result (id, content) in order, without the calls whose id no result has. |
| `Transcripts.JoinSnoc` | src/core/session.ts:341-345 | Texts are joined by single line breaks. |
| `Transcripts.ConvertToMessages` | src/core/session.ts:313-383 | The pushing loops compute the entry-by-entry specification, for every entry and role. |
| `Transcripts.SanitizeToolMessages` | src/core/session.ts:386-412 | The two-pass loop computes the sanitizing specification. |
| `Transcripts.ConvertToItems` | src/core/session.ts:488-538 | The loops and the final filter compute the item specification. |
| `Compaction.TokensFor` | src/core/compaction.ts:37-42 | The estimate is the least integer at or above chars / 3.5. |
| `Compaction.RoundingKeepsTokens` | src/core/compaction.ts:40-42 | Dividing and rounding in doubles gives that same integer, for up to 2^50 characters. |
| `Compaction.ThresholdIsWithinOne` | src/core/compaction.ts:68-81 | With the product computed in doubles: an override only lowers the threshold, one outside (0, 100] is ignored, and rounding moves it by at most one token, only when the exact share is within the rounding error of a whole number. |
| `Compaction.FullShareIsExact` | src/core/compaction.ts:75-78 | An override of 100 is the window exactly. |
| `Compaction.SeventyPercentLosesAToken` | src/core/compaction.ts:75-78 | With the default window and an override of 70 the exact threshold is 126000 and the code returns 125999. |
| `Compaction.SecondRoundingCounts` | src/core/compaction.ts:75-78 | The product is rounded as well: 70 percent of 100000 is 70000, although the product with the rounded share lies below it. |
| `Doubles.NearestError` | src/core/compaction.ts:76 | Rounding to the nearest double, ties to even, is off by at most one part in 2^53. |
| `Compaction.ActiveEntriesSpec` | src/core/compaction.ts:85-95 | The active window is a suffix with no boundary after its first position; it is the whole log or starts at a boundary, and starts at one exactly when the log has one. |
| `Compaction.ActiveAfterBoundary` | src/core/compaction.ts:85-95 | After a boundary the window is that boundary and what follows, whatever came before. |
| `Compaction.GetActiveEntries` | src/core/compaction.ts:86-95 | The backward scan computes the active window. |
| `Compaction.MicrocompactKeepsConversation` | src/core/compaction.ts:107-144 | The model conversation after microcompaction has the same messages, roles, texts, calls, ids and order; only result values may have become the placeholder. |
| `Compaction.SavedTokensAccuracy` | src/core/compaction.ts:58-60 | The estimate never grows, and the reported saving misses the true drop by at most one token per truncated block. |
| `Compaction.StrippedAt` | src/core/compaction.ts:111-128 | An entry is stripped exactly when it holds a tool result and at least the kept number of later entries do too; no entry's estimate grows. |
| `Compaction.StripIsExact` | src/core/compaction.ts:125-143 | Stripping an entry replaces exactly the contents of its tool results of more than 500 characters by the placeholder, and changes nothing else. |
| `Compaction.EstimateIsLength` | src/core/compaction.ts:44-56 | An entry's estimate is the least integer at or above the length of all it writes, over 3.5: texts, results, and names and JSON inputs of calls. |
| `Compaction.EstimatesAdd` | src/core/compaction.ts:58-60 | The session estimate is the sum of its entries' estimates. |
| `Compaction.ToolResultIff` | src/core/compaction.ts:112-118 | An entry counts as a tool result when any of its blocks is one. |
| `Compaction.TruncatedAreChanged` | src/core/compaction.ts:125-143 | The truncated blocks of the accounting are exactly the blocks that microcompaction changes. |
| `Compaction.MicrocompactTwice` | src/core/compaction.ts:107-144 | A second pass changes nothing and saves 0. |
| `Compaction.Microcompact` | src/core/compaction.ts:107-144 | Index collection, the truncatable set and the mapping loop compute the recursive specification and its saving, for any keep count. |
| `Compaction.TruncatableEntries` | src/core/compaction.ts:120-123 | The truncatable set is exactly the entries followed by enough later tool-result entries. |
| `SessionStores.ChainIff` | src/core/session.ts:174-189 | Over every run of a store created on any chained log, the log is one parent chain exactly when every opening on a non-empty log is followed by a restore or a written compaction before the next message. |
| `SessionStores.ForgetsIff` | src/core/session.ts:156-162 | Over every such run, the store does not know its last entry exactly when some opening on a non-empty log has no later message, restore or written compaction. |
| `SessionStores.UnbrokenSessionIsOneChain` | src/core/session.ts:174-189 | Every run of appends, restores and compactions of a new session that is never reopened is one chain. |
| `SessionStores.ReopenedAppendBreaksChain` | src/core/session.ts:174-189 | A concrete run that starts a second chain. |
| `SessionStores.AppendKeepsChainIff` | src/core/session.ts:174-189 | One append continues the chain exactly when the store knows the last uuid. |
| `SessionStores.WindowAfterCompaction` | src/core/compaction.ts:264-277 | After a full compaction and any further run without one, the active window is exactly boundary, summary and the entries appended since. |
| `SessionStores.SummaryLeadsTheWindow` | src/core/compaction.ts:204-223 | After a full compaction and any further run without one, both model formats of the active window start with the summary as a user text. |
| `SessionStores.LogKeepsMessages` | src/core/session.ts:174-189 | Over every run the log holds the appended messages, each with its own role, content and uuid, in order, and nothing else but what compactions wrote. |
| `SessionStores.OtherLinesAreSkipped` | src/core/session.ts:127-162 | Lines that are not messages count for nothing: a restored store points at the last message before them and a forced compaction continues from it. |
| `SessionStores.OnlyOtherLines` | src/core/session.ts:127-162 | In a log of nothing else there is nothing to restore or compact. |
| `SessionStores.OverlappedCompaction` | src/core/compaction.ts:266-274 | Entries appended while summarising are outside the new window, and with distinct uuids the chain survives exactly when there were none. |
| `SessionStores.MessageDuringCompactionIsLost` | src/core/compaction.ts:266-274 | A concrete message appended while summarising: the chain breaks and the message is in the log but not in the window. |
| `SessionStores.DecisionIsSound` | src/core/compaction.ts:241-278 | Doing nothing means below the threshold; a microcompact result is below it and keeps the conversation; a full compact happens only when stripping would not suffice or its true saving is below the minimum plus the estimate error. |
| `SessionStores.RunCompactIfNeeded` | src/core/compaction.ts:241-278 | The orchestrator returns the specified decision and takes the specified step on the store. |
| `SessionStores.RunForceCompact` | src/core/compaction.ts:285-308 | Null exactly on an empty window, otherwise the window's estimate; the store takes the specified step. |
| `SessionStores.SessionStore.AppendEntry` | src/core/session.ts:174-189 | The stored entry points at the remembered uuid, which becomes its own. |
| `SessionStores.SessionStore.RestoreLast` | src/core/session.ts:156-162 | Remembers the last readable entry, if any. |
| `EntityQueue.ReadsSeeACommittedState` | src/core/entity-store.ts:107-195 | At any moment of any interleaving of the tasks, with any failures, `get`, `list` and `search` return what the in-memory store returns after a prefix of the accepted calls, ties included, and every settled operation returned what it returns there. |
| `EntityQueue.RunLinearizes` | src/core/entity-store.ts:107-112 | From the promise chain alone: at most one task is past its promise and unsettled, tasks settle in call order, and the file is the in-memory store after the settled operations. |
| `EntityQueue.OnlySuccessChangesFile` | src/core/entity-store.ts:139-147 | A step that changes the file settles the first unsettled task successfully, and the file becomes what that operation makes of the file before it. |
| `EntityQueue.StoredEntitiesAreProper` | src/core/entity-store.ts:67-83 | Over every interleaving only entities with a one-word name and a description are ever stored. |
| `EntityQueue.ExactlyFrontCanMove` | src/core/entity-store.ts:108-112 | Whatever failed before, the first unsettled task can move and no other can. |
| `EntityQueue.QueueDrains` | src/core/entity-store.ts:107-112 | Whatever fails, a schedule that always advances a movable task has at most four steps a task, and is stuck only when all have settled. |
| `EntityQueue.UnchainedUpsertIsLost` | src/core/entity-store.ts:102-106 | Without the chain the same steps lose an update: two upserts succeed and one entity remains. |
| `EntityStores.UpsertRefines` | src/core/entity-store.ts:149-168 | Rewriting the file array and setting the map key give the same list and the same entity, for new and existing keys. |
| `EntityStores.DeleteRefines` | src/core/entity-store.ts:185-195 | Filtering the array and deleting the map key give the same list and the same answer. |
| `EntityStores.ReadsRefine` | src/core/entity-store.ts:174-177 | The first match in the file is the map's value for the key. |
| `EntityStores.UpsertThenGet` | src/core/entity-store.ts:214-235 | Storing an entity makes it the one found under every spelling of its name, with the first creation time, and changes nothing else. |
| `EntityStores.DeleteThenGet` | src/core/entity-store.ts:233-247 | Deleting removes what was found under the name in every spelling, and nothing else. |
| `EntityStores.SearchIff` | src/core/entity-store.ts:179-183 | A search finds exactly the entities whose folded name or description contains the trimmed, folded query, newest first; a blank query finds all. |
| `EntityStores.AcceptedIff` | src/core/entity-store.ts:67-79 | Input is accepted exactly when the trimmed name is one non-empty word and the description is not blank. |
| `EntityStores.SortNewestIsStable` | src/core/entity-store.ts:89-89 | `list` is newest first, a permutation, and keeps stored order among equal times. |
| `EntityNames.TrimKeepsKey` | src/core/entity-store.ts:63-63 | A stored (trimmed) name has the key of the name it came from. |
| `EntityNames.KeyIff` | src/core/entity-store.ts:63-63 | Two names have one key exactly when, trimmed, they differ in ASCII case at most. |
| `Strings.TrimCuts` | src/core/entity-store.ts:63-63 | Trimming cuts white space off both ends and leaves none there. |
| `EntityStoreObjects.FileEntityStore.Upsert` | src/core/entity-store.ts:149-168 | Rejects exactly invalid input without touching the file; otherwise the file becomes the specified list. |
| `EntityStoreObjects.FileEntityStore.Delete` | src/core/entity-store.ts:185-195 | Writes only when something was removed; the file becomes the specified list. |
| `EntityStoreObjects.MemoryEntityStore.Upsert` | src/core/entity-store.ts:214-227 | The map and its insertion order become the specified ones. |
| `EntityStoreObjects.MemoryEntityStore.Delete` | src/core/entity-store.ts:243-247 | The key is removed from the map and its order. |
| `Migrations.AnyHistoryEndsTheSame` | src/migrations/runner.ts:121-155 | Any number of runs cut off at any write, then one completed run: the config has every pending migration applied once in registry order, and the journal is the old one followed by their ids. |
| `Migrations.CrashEquivalence` | src/migrations/runner.ts:132-146 | So config and journaled ids equal those of one uninterrupted run. |
| `Migrations.CrashSafeIff` | src/migrations/types.ts:8-12 | Crashes are harmless from every disk exactly when ids are distinct and every body is idempotent. |
| `Migrations.JournalEndsTheSame` | src/migrations/runner.ts:126-143 | With distinct ids and any bodies, after any cut-off runs and one completed run the journal is the old one followed by the pending ids in registry order. |
| `Migrations.JournalStaysDistinct` | src/migrations/runner.ts:126-128 | With distinct ids and any bodies, a completed journal repeats an id exactly when the old one did. |
| `Migrations.JournalSafeIff` | src/migrations/runner.ts:126-143 | Crashes leave the journaled ids alone from every disk exactly when the ids of the registry are distinct. |
| `Migrations.NonIdempotentBodyRunsTwice` | src/migrations/types.ts:8-12 | A concrete crash between body and journal that runs a non-idempotent body twice. |
| `Migrations.RepeatedIdLosesABody` | src/migrations/runner.ts:127-128 | A concrete crash after which the second of two migrations with one id is lost. |
| `Migrations.RunMigrations` | src/migrations/runner.ts:121-155 | The loop over pending migrations leaves exactly the specified disk after any number of writes. |
| `Migrations.AttemptStampsItsRecords` | src/migrations/runner.ts:137-143 | Each attempt journals one record for every two writes, with its own clock and version, and leaves older records alone. |
| `Cron.NextCronFire` | src/core/schedule-expr.ts:39-69 | The least whole minute strictly after the time and within 366 days whose five fields all match, and none exactly when there is no such minute or a field is bad. |
| `Cron.ParseFieldValues` | src/core/schedule-expr.ts:71-111 | None exactly when a part is bad or nothing is allowed; otherwise the pushed values are exactly the allowed ones. |
| `Cron.PushSteps` | src/core/schedule-expr.ts:88-88 | The step loop pushes exactly the grid values of the range. |
| `Cron.PartMeans` | src/core/schedule-expr.ts:74-107 | Each part allows exactly every step-th value from its start to its end, and is bad exactly when it is malformed or steps by zero. |
| `Cron.WeekendIsSkipped` | src/core/schedule-expr.ts:55-63 | Weekdays at nine, asked on a Friday noon, next fire on Monday. |
| `Cron.ComputeNextRun` | src/core/schedule-expr.ts:20-33 | Any returned time is strictly later; each kind returns exactly its promised time. |
| `Cron.NextFireIsStable` | src/core/schedule-expr.ts:39-69 | Asking again before the next fire gives that fire and nothing else. |
| `Cron.CallsEnumerateFires` | src/core/schedule-expr.ts:39-69 | Repeated calls list every firing minute in order and skip none. |
| `Cron.CallsStopOnlyAtAGap` | src/core/schedule-expr.ts:52-68 | When the calls stop, no minute fires in the 366 days after the last answer. |
| `Cron.LeapDaySearchGivesUp` | src/core/schedule-expr.ts:35-38 | A parseable leap-day expression, asked on any February 29th, has the empty answer. |
| `Calendar.DateOfDayIff` | src/core/schedule-expr.ts:53-65 | A date is the date of day n exactly when the closed formula of ECMA-262 gives it that day number, before and after the epoch. |
| `Calendar.WeekdayIsZeller` | src/core/schedule-expr.ts:59-59 | The weekday of a time is Zeller's congruence of its date. |
| `Calendar.WeekdaySteps` | src/core/schedule-expr.ts:59-59 | The epoch is a Thursday and each day the next day of the week. |
| `Calendar.TimeParts` | src/core/schedule-expr.ts:60-61 | Day, hour, minute and the rest of the minute recompose the time. |
| `Calendar.NoLeapDayWithinAYear` | src/core/schedule-expr.ts:52-52 | No other February 29th falls in the 366 days after one. |
| `EventLogs.RunKeepsLog` | src/core/event-log.ts:135-156 | Over every run of appends, failed appends and restarts, seqs strictly increase and the buffer is the last `bufferSize` disk entries. |
| `EventLogs.DiskHoldsAppends` | src/core/event-log.ts:137-150 | Over every run the disk gains exactly the stored appends, in order, with time, type, payload and cause. |
| `EventLogs.ContiguousIff` | src/core/event-log.ts:137-150 | From an opened log, seqs are 1, 2, 3, ... exactly when no failed append is directly followed by a stored one. |
| `EventLogs.FailedAppendLeavesGap` | src/core/event-log.ts:137-150 | The smallest run that leaves a gap. |
| `EventLogs.ReopenRestoresIff` | src/core/event-log.ts:316-351 | After every run, reopening gives the same counter exactly when the run does not end in a failed append, and the same buffer when `bufferSize` is at least 1. |
| `EventLogs.ReopeningDiffers` | src/core/event-log.ts:316-351 | Concrete runs: a failed append is forgotten by reopening, and a log of buffer size zero has its entry in memory only after reopening. |
| `EventLogs.RecentAgreesIff` | src/core/event-log.ts:236-255 | `recent` equals `read` exactly when no entry that left memory passes the filter, for every limit. |
| `EventLogs.RecentAgreesFromBuffer` | src/core/event-log.ts:236-255 | In particular once `afterSeq + 1` reaches the first buffered seq. |
| `EventLogs.LimitHoldsIff` | src/core/event-log.ts:200-201 | A limited answer is the first max(1, limit) matches, so the limit bounds it exactly when it is at least one or nothing matches. |
| `EventLogs.SelectIff` | src/core/event-log.ts:191-207 | Without a limit, reading returns exactly the entries after the given seq and of the given type, no type and the empty one meaning any. |
| `EventLogs.ZeroLimitReturnsOne` | src/core/event-log.ts:200-201 | Asked for zero entries, the log returns one. |
| `EventLogs.PagesPartitionLog` | src/core/event-log.ts:212-232 | Pages 1 to `totalPages` concatenate to the reversed matching log, every page but the last is full. |
| `EventLogs.PagePastEnd` | src/core/event-log.ts:226-229 | A page past the last is empty exactly when the skipped count is the total or at least twice it; otherwise it repeats the oldest entries. |
| `EventLogs.PageThreeOfTwo` | src/core/event-log.ts:226-229 | Page 3 of 2 of a log of three entries repeats the two oldest. |
| `EventLogs.Scan` | src/core/event-log.ts:191-207 | The filtering loop with its late limit check computes the specified selection. |
| `EventLogs.EventLog.AppendEvent` | src/core/event-log.ts:135-170 | Rejected, failed and stored appends each leave the specified counter, disk and buffer. |
| `EventLogs.EventLog.Recent` | src/core/event-log.ts:236-255 | Memory is scanned by the shared selection. |
| `EventLogs.EventLog.Query` | src/core/event-log.ts:212-232 | Clamped arguments, total, page count and page are the specified ones. |
| `Pumps.NeverStalls` | src/core/pump.ts:108-152 | Over every interleaving: at most one `onTick` runs; a started, enabled, unstopped pump has an armed timer or a tick in flight; the error count is the trailing run of failures; a timer's delay is the interval or clamped backoff for that run when it was armed. |
| `Pumps.RunKeepsInv` | src/core/pump.ts:93-152 | The invariant behind it is kept from any state that has it. |
| `Pumps.LiveIff` | src/core/pump.ts:108-115 | Over every run, an enabled, unstopped pump is armed or running exactly when it was started, run by hand, or toggled away from its initial setting; only an enabled, unstopped pump is armed. |
| `Pumps.ManualRunArmsUnstarted` | src/core/pump.ts:108-109 | A manual run arms a pump that was never started. |
| `Pumps.StopIsTerminal` | src/core/pump.ts:162-165 | After `stop` no tick starts and nothing is armed. |
| `Pumps.StaleIff` | src/core/pump.ts:102-115 | Over every run, the pending delay predates the last tick end exactly when some tick ended while a timer was pending that is pending still; otherwise it is the interval or backoff for the current run of failures. |
| `Pumps.BackoffEscalates` | src/core/pump.ts:102-106 | Over every run, a timer no tick end has overtaken waits the interval after a success, the k-th backoff after k failures in a row, and the last backoff from then on. |
| `Pumps.EnabledAsTold` | src/core/pump.ts:166-175 | Until it is stopped a pump is enabled as it was last told. |
| `Pumps.TimerAfterTickIsCurrentIff` | src/core/pump.ts:143-147 | When a tick ends, a timer armed before or during it is kept, and otherwise a current one is armed. |
| `Pumps.FailedRunNowKeepsOldDelay` | src/core/pump.ts:179-188 | A failing manual run leaves the plain interval armed. |
| `Pumps.ScheduledPumpIsPunctual` | src/core/pump.ts:102-115 | Driven by its own timers only, a pump always waits the current delay and never drops a fire. |
| `Pumps.PumpObject.ArmTimer` | src/core/pump.ts:108-115 | The closure state takes the specified arming step. |
| `Pumps.PumpObject.BeginTick` | src/core/pump.ts:124-132 | A tick starts exactly when the pump is not stopped and none runs. |
| `Pumps.PumpObject.FinishTick` | src/core/pump.ts:134-147 | The end of a tick updates the error count and re-arms as specified. |
| `Pumps.PumpObject.Toggle` | src/core/pump.ts:166-175 | `setEnabled` takes the specified step. |
| `Pumps.PumpObject.RunOnce` | src/core/pump.ts:179-188 | `runNow` starts a tick exactly when it would not overlap one. |
| `AsyncChannels.ChannelDeliversInOrder` | src/core/async-channel.ts:16-84 | Over every run, delivered values followed by the queue are the values pushed before close or error, in order; every `next` is settled except one that waits while the channel is open and empty; the end, or the first error, is seen only after every value, and then for ever. |
| `AsyncChannels.AsyncChannel.PushValue` | src/core/async-channel.ts:23-32 | A push settles the waiter or joins the queue, and is ignored after the end. |
| `AsyncChannels.AsyncChannel.CloseWith` | src/core/async-channel.ts:34-55 | Closing settles a waiter with the end, or with the error just set. |
| `AsyncChannels.AsyncChannel.PullNext` | src/core/async-channel.ts:59-76 | `next` prefers queued values, then the error, then the end, and otherwise waits. |
| `InboxStores.RunRefines` | src/core/inbox-store.ts:223-340 | Every sequential run with positive read times gives the same answers in both stores, and every later read returns the same page. |
| `InboxStores.StepRefinesIff` | src/core/inbox-store.ts:276-295 | One operation answers alike and keeps both stores alike, except exactly when an existing entry is marked with a time of zero or less. |
| `InboxStores.MarkIsExact` | src/core/inbox-store.ts:397-409 | Marking sets or removes the read time of the one entry, and answers whether there is one. |
| `InboxStores.DeleteIsExact` | src/core/inbox-store.ts:389-395 | Deleting removes the one entry and no other. |
| `InboxStores.AcceptedIff` | src/core/inbox-store.ts:135-151 | Input is accepted exactly when it names a workspace, has a document or a comment that is not blank, and every document has a path. |
| `InboxStores.InScopeIff` | src/core/inbox-store.ts:259-261 | A workspace's entries are those that name it, and with no workspace all of them. |
| `InboxStores.OddLimits` | src/core/inbox-store.ts:269-272 | A limit of zero is no limit; a negative one leaves out that many of the oldest. |
| `InboxStores.ZeroReadTimeDiffers` | src/core/inbox-store.ts:253-256 | A concrete read time of zero: unread in the file store, read in memory. |
| `InboxStores.PagingVisitsEachOnce` | src/core/inbox-store.ts:263-273 | Paging with `before` visits each entry present at the first page exactly once, newest first, whatever is appended between pages. |
| `InboxStores.HasMoreIff` | src/core/inbox-store.ts:269-273 | `hasMore` is false exactly on a page that reaches the oldest entry in scope. |
| `InboxStores.DeleteRefines` | src/core/inbox-store.ts:297-340 | Rewriting the log without an id and forgetting its read time is removing that one entry. |
| `InboxObjects.FileInbox.AppendEntry` | src/core/inbox-store.ts:223-234 | Invalid input is rejected with its error; otherwise one line is appended. |
| `InboxObjects.FileInbox.MarkEntryRead` | src/core/inbox-store.ts:276-284 | The overlay gains the time exactly when the entry exists. |
| `InboxObjects.FileInbox.MarkEntryUnread` | src/core/inbox-store.ts:286-295 | The overlay loses the time exactly when the entry exists. |
| `InboxObjects.FileInbox.DeleteEntry` | src/core/inbox-store.ts:297-340 | Log and overlay become the specified ones. |
| `InboxObjects.FileInbox.ReadEntries` | src/core/inbox-store.ts:236-274 | The overlaid, scoped, reversed page with its `hasMore`. |
| `InboxObjects.KeepOthers` | src/core/inbox-store.ts:308-323 | The scan keeps every other line in order and reports whether one went. |
| `InboxObjects.MemoryInbox.Mark` | src/core/inbox-store.ts:397-409 | The one entry's `readAt` is set or removed in place. |
| `InboxObjects.MemoryInbox.DeleteEntry` | src/core/inbox-store.ts:389-395 | The first entry with the id is spliced out. |
| `HeadlessTasks.TailSink.Push` | src/workspaces/headless-task.ts:88-96 | Whatever the chunking, the sink holds a suffix of everything pushed that is at most twice the budget and at least the budget or everything. |
| `HeadlessTasks.TailSink.Text` | src/workspaces/headless-task.ts:97-99 | The text is the last `maxBytes` of everything pushed exactly when the budget is positive or nothing was pushed. |
| `HeadlessTasks.ScanSplits` | src/workspaces/headless-task.ts:116-131 | Scanning a text in two parts finds the first complete line that extracts, as scanning it whole does. |
| `HeadlessTasks.LineIdIff` | src/workspaces/headless-task.ts:121-125 | A line yields an id exactly when its trimmed text is not empty and extracts to a non-empty one. |
| `HeadlessTasks.SessionIdScanner.Push` | src/workspaces/headless-task.ts:116-132 | At most one report ever; while lines fit the cap, the report is the first id of all text fed. |
| `HeadlessTasks.ScanOutput` | src/workspaces/headless-task.ts:109-134 | For any chunking, the id found is the one on the first complete line of the whole output that has one. |
| `HeadlessRegistries.FlushFacts` | src/workspaces/headless-task-registry.ts:179-200 | A flush loses no running record, keeps order, drops finished records oldest first, and leaves at most 200 records or only running ones. |
| `HeadlessRegistries.PruneIsDropOldest` | src/workspaces/headless-task-registry.ts:182-190 | Filtering by the ids of the oldest finished records is removing those records. |
| `HeadlessRegistries.RunningLostIff` | src/workspaces/headless-task-registry.ts:183-190 | Without distinct ids a flush loses running records exactly when one of them has the id of one of the oldest finished records over the limit of 200. |
| `HeadlessRegistries.SharedIdLosesAll` | src/workspaces/headless-task-registry.ts:183-190 | A concrete registry of 201 records with one id that a flush empties. |
| `HeadlessRegistries.RegistryStaysBounded` | src/workspaces/headless-task-registry.ts:111-155 | Over every run with fresh ids, at most 200 records or only running ones. |
| `HeadlessRegistries.CreatedIsKept` | src/workspaces/headless-task-registry.ts:119-130 | A created record is running and newest, with all it was created with, and no other running record goes. |
| `HeadlessRegistries.UpdatesAreExact` | src/workspaces/headless-task-registry.ts:134-155 | Below the limit an update changes exactly the named fields of exactly the named record. |
| `HeadlessRegistries.RestartIsExact` | src/workspaces/headless-task-registry.ts:99-109 | Below the limit a restart interrupts exactly the running records, which finish when recorded or else when they started. |
| `HeadlessRegistries.NoZombieAfterRestart` | src/workspaces/headless-task-registry.ts:98-109 | After a restart no record is running, and every record the restart itself interrupts has a finish time. |
| `HeadlessRegistries.InterruptRunning` | src/workspaces/headless-task-registry.ts:99-107 | The in-place loop interrupts exactly the running records and says whether there were any. |
| `HeadlessRegistries.HeadlessTaskRegistry.CreateTask` | src/workspaces/headless-task-registry.ts:111-132 | The record is appended as running and the list pruned as specified. |
| `HeadlessRegistries.HeadlessTaskRegistry.CompleteTask` | src/workspaces/headless-task-registry.ts:134-147 | The first record with the id is patched and the list pruned; an unknown id changes nothing. |
| `HeadlessRegistries.HeadlessTaskRegistry.Flush` | src/workspaces/headless-task-registry.ts:179-200 | The list becomes the pruned one. |

## Left out

- Terminal sessions: stdin, resizing and terminal dimensions, the `onDisposed` and first-exit callbacks, child signals and pids, and log output.
- SessionTheorems.NeverStrandsIff: does not model the exact JSON length of a cursor message; it is one constant, and a failed send is the socket's close event.
- SessionTheorems.CursorNeverLags: says nothing about the two-second timer itself; when it fires is a choice of the environment.
- ReplayBuffers.ReplayBuffer.Evict: does not model the early return on a missing first chunk, which the proof shows cannot be reached.
- Conversations: timestamps, providers, working directory, compaction metadata and image blocks' contents; `toTextHistory` and `toChatHistory`, which only format.
- Compaction.ThresholdIsWithinOne: covers windows up to 2^50 tokens; far beyond that two roundings can differ by more than one token.
- Doubles.NearestError: exponents are unbounded, so overflow and subnormal numbers are not modelled; no window or percentage comes near either.
- Compaction.SavedTokensAccuracy: counts characters of a tool input's JSON text as given; serialisation itself is not modelled.
- SessionStores.WindowAfterCompaction: does not model the prompt or the summarising call; the summary is any text, and the fixed introduction before it is part of that text.
- SessionStores.ChainIff: covers logs without `meta` entries; with them `restore` would skip the last line.
- SessionStores.SessionStore.AppendEntry: does not model a failing disk append, and the in-memory session store is the same state without the file.
- EntityNames.TrimKeepsKey: white space is that of ECMA-262, but lower case is only that of ASCII, because Unicode case mapping is not modelled; the lemma itself does not depend on it.
- Entity store: malformed lines of the file are already skipped, and change listeners are not modelled.
- EntityQueue.ReadsSeeACommittedState: starts from a file with one entity per key, as the store itself writes it; does not model a second process writing the same file.
- Migrations.AnyHistoryEndsTheSame: bodies are all-or-nothing; does not model a torn journal write or a snapshot failure other than as a stop.
- Migrations.RunMigrations: does not model one clock reading per record; all records of one run carry one time, and no theorem depends on it.
- Cron.NextCronFire: does not model local time zones and daylight saving, the ECMA-262 time range, or tokenising; a field is given as its parts, and a number part that is not an integer (it would parse and never match) is not representable.
- Cron.ComputeNextRun: does not model date and duration parsing; an `at` or `every` schedule is given by its parse result.
- Event log: listeners, closing, JSON lines and torn last lines; appends are sequential.
- Pumps.NeverStalls: covers `serial: true` and an `onTick` that returns a promise; the code is not written for a synchronous throw.
- AsyncChannels.ChannelDeliversInOrder: does not model two pending `next` calls; the second would overwrite the waiter of the first.
- InboxStores.RunRefines: does not model concurrent appends and deletes, aliasing of the objects the in-memory store returns, or listeners.
- HeadlessTasks.ScanOutput: promises nothing once a line outgrows the cap, and does not model decoding; the scanner decodes each chunk on its own, so a character split across two chunks is outside the model.
- HeadlessRegistries.HeadlessTaskRegistry.Flush: does not model the file write, whose failure is only logged, nor the removal of log files.
- Running headless processes, process locks, session naming, authorization levels, sealing, and the network, tool and user-interface layers: plumbing around these models, or code this model does not see.
