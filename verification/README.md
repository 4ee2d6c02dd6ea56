# Proofs about Oga's clients

Oga is a task broker. This project models the parts of it whose correctness hangs on order, state and arithmetic,
and proves what they promise. `dafny verify dfyconfig.toml` checks all of it.

- **The agent connection.** `FrameReader` is the buffer that cuts an agent's output into lines, with its four
  counters, proved equal to splitting on newlines. `Connection` is the request protocol (sections 4 and 5 of the
  JSON-RPC 2.0 specification) as atomic steps of callers, writer, reader and timers; `Session` is the ACP session on
  top, with the claim that an error which allows a retry elsewhere means the prompt never left, and `Opening` what its
  handshake comes to; `StderrTail` keeps the agent's last words.
- **Events from broker to screen.** `Sse` is the byte framing (section 9.2 of the WHATWG HTML standard);
  `EventStream` the connection with its cursor, over any number of drops, and `Waits` its backoff; `TaskFollower` the
  task on screen, from the shell's reads to the web view's fold; `Batcher` the desktop shell's bounded queue with its
  overflow cell, and `BatchCursors` what its batches say; `Sidebar` what the list does with them.
- **The code index.** `Reconcile` sets the incremental index against a rebuild, `Nest` the symbol stack against what
  nesting means, `Calendar` the closed-form date against the Gregorian calendar (section 5.7 and Appendix C of
  RFC 3339).
- **Rules and view state.** `Destinations`, `LoveRules`, `LoveEditor` and `LoveMigration` are the standing rules: their
  spelling, the choice among them, and the editor that has to keep the reader's invariants. `VirtualList`, `Grouping`,
  `TaskGroups` and `ProjectTree` are the sidebar's geometry and partitions; `Toasts` (with the object in `ToastStores`)
  and `OutcomeViews` two stores with invariants over every run. `Basics`, `Lists`, `Logs`,
  `Texts` and `Protocol` hold what they share.

Code that changes state step by step is a class or a method proved against a specification function; what the source
promises is then proved of that function, over every run. Concurrent parts are state machines over their steps.

## What was found

The model follows the code. Where the code does less than its own comments or a reader would expect, a lemma gives the
case, and the exact condition is proved where there is one.

- A line is reported as oversized exactly when a read ended more than the limit into it, so a line up to 8191 bytes
  longer than the limit may still be delivered (`FrameReader.Frames`, `FrameReader.DeliveredLinesAreBounded`).
- A writer that fails marks the connection closed but wakes nobody who waits (`Connection.WriterFailureWakesNobody`).
- `reconcile` keeps a stale row for a known file that stopped being readable, and equals a rebuild otherwise
  (`Reconcile.ReconcileIsRebuildIff`, `Reconcile.UnreadableFileIsLeftStale`).
- A shell about to connect can be taken past deleted rows without a word exactly when a visible one lies past its cursor
  and the server does not find the cursor stale (`EventStream.SilentLossIff`). One that read an empty log is at zero,
  which is never stale (`EventStream.FrontSilentLossIff`, `EventStream.AFirstConnectionSkips`); and cleanup deletes task
  by task, so that an older task's rows can keep the oldest id below any cursor.
- A stream that went on reading after a frame it could not parse would lose an event; the pump opens it again, so none
  is lost (`EventStream.ReadingOnLoses`).
- The web view takes a push that starts before its cursor, though the push's own comment asks for equality. A reader
  that keeps to equality never has a hole (`TaskFollower.HeldIsTheLog`); in the web view a belated push with a task row
  can open one, under an exact condition (`TaskFollower.DeltaKeepsWindowIff`, `TaskFollower.ABelatedPushOpensAHole`),
  and reading the task again repairs it only if the answer starts over or reaches back to what is missing
  (`TaskFollower.SnapshotRepairsIff`, `TaskFollower.AResyncKeepsTheHole`). The page read when a watch fails is merged
  without the check for a restart, and opens a hole under an exact condition too (`TaskFollower.PageKeepsWindowIff`).
- A watch reads the log first and stores its cursor later, so a late answer can take the shell back behind its own pushes
  (`TaskFollower.ALateAnswerIff`); what it pushes again is folded with nothing missing
  (`TaskFollower.ALateAnswerBringsThePushBack`).
- The batcher can wait in its receive with the overflow cell set, until another pointer comes
  (`Batcher.WhereAStaleBatchWaits`, `Batcher.AStaleBatchCanWait`).
- A pointer that arrives while the batcher drains its channel is thrown away with the rest, and the stale batch that
  follows can have a smaller cursor (`BatchCursors.AStaleBatchCanBeBehind`); that of a pointer that found the channel
  full is always reported (`BatchCursors.RefusalsAreReported`).
- The sidebar raises its cursor to a batch's before it looks at the pointers, so its gap check never fires inside a
  batch (`Sidebar.BatchesHideGaps`); a stale batch with pointers could lose its reread, but the batcher sends none
  (`Sidebar.StaleCanBeForgotten`, `Sidebar.StaleBatchesRefresh`).
- A list reread drops a row that ties with the last row of a full page (`Sidebar.ListedRowsStayIff`).
- Tasks that are each other's parents are shown under each other (`Grouping.ACircleComesApart`): on a circle only a task
  that is its own parent comes under its parent's root (`Grouping.CircleStaysTogetherIff`).
- A catch-all rule spelled `when: []` is lost by an edit that names kinds, and makes the reader refuse the file after
  one that names none (`LoveEditor.SetKeepsTheReaderIff`). A `loved` flag on a shared model with a colon in its id turns
  into a rule for another worker's model (`LoveMigration.FlagKeepsItsMeaningIff`); one that cannot be read as a rule at
  all makes the reader refuse the file after an edit that names kinds (`LoveMigration.EditKeepsTheFile`).
- A list scrolled past its end still draws its last row (`VirtualList.RangeIsExactIff`).
- A toast said, or settled as a success, while the pointer rests on the others starts its timer all the same, and can go
  before the pause ends (`Toasts.AToastGoesInsideAPause`). Every other toast has its four seconds outside pauses
  (`Toasts.GoesAfterFourSeconds`).
- The open row can move though its outcome does not change and only fresh rows mark it viewed: when another outcome in
  the same state has been viewed, a stale row looks read and the fresh one does not
  (`OutcomeViews.AFreshenedRowStaysIff`, with a run from the empty store in `OutcomeViews.AFreshenedRowMoves`). A stale
  row that marked its task viewed would move too, unless it was viewed or its stored outcome is the task's own
  (`OutcomeViews.AMarkedStaleRowStaysIff`, `OutcomeViews.MarkingAStaleRowMovesIt`); the task screen marks with fresh
  rows only.

## Model

| member | source | states |
|---|---|---|
| FrameReader.Reader.Next | rust/crates/oga-acp/src/transport.rs:450-493 | hands out the next frame owed for the bytes from its line start, the end, or the read error, and no byte is compared with a newline twice |
| FrameReader.Reader.Scan | rust/crates/oga-acp/src/transport.rs:452-458 | finds the first newline not yet ruled out, and compares only bytes it has not compared before |
| FrameReader.Reader.TakeLine | rust/crates/oga-acp/src/transport.rs:456-470 | the line is the exact bytes since its start, or its exact size when its head was thrown away |
| FrameReader.Reader.SetAside | rust/crates/oga-acp/src/transport.rs:471-479 | keeps the line's start, its discarded count exact, and at most the limit in the buffer |
| FrameReader.Reader.Finish | rust/crates/oga-acp/src/transport.rs:480-490 | the last line without a newline comes out whole or as oversized with its size, and nothing comes out when nothing is left |
| FrameReader.ReadFrames | rust/crates/oga-acp/src/transport.rs:322-341 | reading to the end gives exactly the frames owed, with the oversized ones counted and their bytes summed |
| FrameReader.FramesAreTheLines | rust/crates/oga-acp/src/transport.rs:427-493 | for every byte stream and every cutting into reads: one frame per newline-separated line, in order, each the exact line or its exact size, and every line within the limit intact; when the pipe ends in a read error, one for each complete line |
| FrameReader.DeliveredLinesAreBounded | rust/crates/oga-acp/src/transport.rs:450-493 | no delivered line reaches the limit plus one read |
| FrameReader.LongLinesOverrun | rust/crates/oga-acp/src/transport.rs:471-479 | a complete line at least one read longer than the limit is oversized, however the reads fell |
| FrameReader.BytesAreConserved | rust/crates/oga-acp/src/transport.rs:450-493 | frame sizes and newlines add up to the bytes read |
| Connection.SentExactlyWhenItSays | rust/crates/oga-acp/src/transport.rs:211-303 | in every interleaving a request that ended as not sent never reached the queue, any other reached it once, and an answer was read with that very id |
| Connection.ClosedMeans | rust/crates/oga-acp/src/transport.rs:305-387 | over every run the connection reads as closed if and only if a write failed or the end of the agent's output was read |
| Connection.HowRequestsMove | rust/crates/oga-acp/src/transport.rs:211-303 | a request moves by its own steps alone: it goes out unless the connection reads as closed or the writer is gone, and ends as not sent, timed out, closed or answered as what was left in its channel says |
| Connection.HowTasksMove | rust/crates/oga-acp/src/transport.rs:305-387 | the writer stops at a failed write; the reader hands each answer to the request that waits for it and at its end wakes whoever is left; the queue grows by sends and other frames alone |
| Connection.NoWaiterOutlivesTheAgent | rust/crates/oga-acp/src/transport.rs:211-303 | once the reader is gone, whoever is still pending will be refused by its own check, and everyone who sent has been woken |
| Connection.EveryRequestEnds | rust/crates/oga-acp/src/transport.rs:211-303 | after the reader is gone every request has a next step of its own that brings it nearer its end, and no other step takes that away |
| Connection.EndsOnce | rust/crates/oga-acp/src/transport.rs:278-303 | no step changes how a request ended |
| Connection.WriterFailureWakesNobody | rust/crates/oga-acp/src/transport.rs:305-320 | a failing writer closes the connection but leaves the waiting where they are |
| Connection.RunKeepsInv | rust/crates/oga-acp/src/transport.rs:322-387 | waiters, phases, channel states, queue and received answers agree after every run |
| StderrTail.StderrTail.Drain | rust/crates/oga-acp/src/transport.rs:97-113 | however stderr is cut into reads, its last bytes up to the limit are kept, and it is said whether any were dropped |
| StderrTail.LastOfLast | rust/crates/oga-acp/src/transport.rs:103-113 | dropping the excess read by read keeps what dropping it at the end would |
| Session.RetryMeansThePromptNeverLeft | rust/crates/oga-acp/src/session.rs:302-506 | over every run, a failed opening queued no prompt, and a prompt's error allows a retry elsewhere if and only if its frame was never queued |
| Session.RefusalsAreAnswers | rust/crates/oga-acp/src/session.rs:424-453 | behind a refused or failed turn is an error the agent sent for that prompt, asking for a sign-in exactly when the turn was refused |
| Session.HowPromptsEnd | rust/crates/oga-acp/src/session.rs:424-453 | over every run a prompt gives a stop reason if and only if its answer has one that the schema names, with `refused` read as `refusal`; is in flight if and only if its request closed, timed out or got another result; is refused or failed if and only if the agent answered with such an error; and allows a retry if and only if it was never queued |
| Session.HowSentPromptsEnd | rust/crates/oga-acp/src/session.rs:498-506 | a prompt left unread is sent if and only if its frame was queued, and otherwise its request ended unsent |
| Session.HowSteersEnd | rust/crates/oga-acp/src/session.rs:473-496 | a steer says where its instruction went if and only if it was answered with a result, and that it was injected if and only if the answer says so |
| Session.WhenCallsGo | rust/crates/oga-acp/src/session.rs:411-506 | over every run a call can be placed if and only if the session is ready, has a request of its own, and settles if and only if that has ended or, left unread, is queued |
| Session.CallsComeAndSettle | rust/crates/oga-acp/src/session.rs:411-506 | placing a call adds it with a new request of its kind, settling gives it a result, and nothing else touches the calls |
| Opening.ReadyIff | rust/crates/oga-acp/src/session.rs:544-640 | over every run an opening that has ended is ready if and only if the agent suits, sign-in and session were answered, and each setting in turn was held, was set and answered, or is not required and not to be had, by what the agent had last advertised |
| Opening.FailuresAreExplained | rust/crates/oga-acp/src/session.rs:544-760 | over every run the error of a failed opening is that of its last request's outcome, or of what kept it from making the next: an unsuitable agent, a sign-in it does not offer, a session it cannot restore, a required setting not to be had |
| Opening.OpeningsDoNotStall | rust/crates/oga-acp/src/session.rs:544-760 | an opening moves on if and only if it has made no request yet or its last one has ended |
| Opening.OpeningsComeToAnEnd | rust/crates/oga-acp/src/session.rs:544-760 | every move of an opening's own leaves it strictly fewer to make, no other move changes where it stands, and none is left exactly when it is ready or has failed |
| Opening.AgentsSuitIff | rust/crates/oga-acp/src/session.rs:168-186 | an agent suits if and only if it speaks the version and, where a release is asked for, has its name and that very build or a patch number of that line in digits |
| Opening.ChoicesAreRead | rust/crates/oga-acp/src/session.rs:761-797 | the search for a setting says held or offered if and only if the first one of that name is a list that stands at the value, or stands elsewhere and has it |
| Session.NoSessionBeforeTheHandshake | rust/crates/oga-acp/src/session.rs:544-640 | no session request is queued before `initialize` was answered with the right version by an admitted release and a sign-in that was asked for completed |
| Session.SteerIsNotRetrySafe | rust/crates/oga-acp/src/session.rs:473-496 | a steer that was sent can end in an error that allows a retry elsewhere |
| Session.AFailedSteerIsSafeIff | rust/crates/oga-acp/src/session.rs:473-496 | every failed steer allows a retry elsewhere, and its frame never left if and only if its request ended as not sent |
| Session.PlayIsSound | rust/crates/oga-acp/src/session.rs:302-382 | handshake and calls stay in step with the wire through every run |
| Sse.EndsAre | rust/crates/oga-client/src/loopback.rs:1187-1206 | a block ends exactly at two line feeds or at two pairs of a carriage return and a line feed, and its delimiter is that long |
| Sse.BoundariesStay | rust/crates/oga-client/src/loopback.rs:1187-1206 | a longer buffer never shows an earlier block boundary, and keeps every boundary it showed |
| Sse.BlocksContinue | rust/crates/oga-client/src/loopback.rs:99-120 | the blocks of a longer stream are those of the shorter one and then those of what was left |
| Sse.CutStreamsDeliverAPrefix | rust/crates/oga-client/src/loopback.rs:99-120 | a stream cut at any byte delivers a prefix of its blocks |
| Sse.Decoder.TakeBlock | rust/crates/oga-client/src/loopback.rs:1187-1206 | drains the first complete block and its delimiter from the buffer, or leaves it |
| Sse.Decoder.Read | rust/crates/oga-client/src/loopback.rs:99-120 | however the bytes are cut into chunks, the blocks are those of the whole stream |
| Sse.ParseBlock | rust/crates/oga-client/src/loopback.rs:1207-1234 | the event name and the joined data of a block, or no event when it has none |
| Sse.DataGrows | rust/crates/oga-client/src/loopback.rs:1207-1234 | appending line by line builds the joined data, less its empty leading lines |
| Sse.EncodedStreamsReadBack | rust/crates/oga-client/src/loopback.rs:99-120 | any list of events written as `event:` and `data:` lines, each with line feeds alone or with carriage returns before them, reads back as itself |
| Sse.ReadEvents | rust/crates/oga-client/src/loopback.rs:99-120 | cutting those bytes into any chunks gives back the same list |
| EventStream.ExactlyOnce | rust/crates/oga-client/src/bridge.rs:420-486 | over any drops, parse errors, failed reconnects and deletions, at any cursor: what was handed on is each visible row between the head first read and the cursor, in order, once, but for rows that were deleted or that a stale answer passed over; and the wait between attempts never passes its limit |
| EventStream.NothingIsLostUnlessDeleted | rust/crates/oga-http/src/sse.rs:186-293 | in every run without a deletion no answer is stale, and the whole list handed on is the log between the head first read and the cursor |
| EventStream.WhatIsLeftIsDelivered | rust/crates/oga-http/src/sse.rs:222-277 | from any new connection until the next deletion, unless a stale answer is taken, exactly the visible rows that are left are handed on, in order |
| EventStream.SilentLossIff | rust/crates/oga-http/src/sse.rs:65-206 | a shell about to connect can be taken past a visible row with no stale answer if and only if its cursor is not found stale and a visible row past it was deleted |
| EventStream.FrontSilentLossIff | rust/crates/oga-http/src/sse.rs:200-206 | where only the oldest rows were deleted: if and only if the cursor is zero and a visible row is gone |
| EventStream.AFirstConnectionSkips | rust/crates/oga-store/src/maintenance.rs:66-85 | a run from the start in which two rows are lost with no stale answer |
| EventStream.CursorsNeverDecrease | rust/crates/oga-client/src/loopback.rs:133-160 | along every run the cursor only rises and what was handed on only grows |
| Waits.WaitsDouble | rust/crates/oga-client/src/loopback.rs:133-160 | over every run the wait before the next attempt is the first one doubled for each connection since the server last said it was ready, up to the limit |
| Waits.WhenAStreamGoes | rust/crates/oga-client/src/loopback.rs:94-153 | a stream comes with a connection at the shell's cursor and goes only when it cannot connect again or, with a reader that does not read on, at a block that cannot be read; losing the body keeps it |
| Waits.StaleIff | rust/crates/oga-http/src/sse.rs:200-223 | a cursor is found stale if and only if it is past zero and behind every row left, of which there is one; the answer then starts at the newest row, and otherwise at the cursor |
| Waits.WhatCanHappen | rust/crates/oga-client/src/bridge.rs:420-486 | the shell reads the head once, opens a stream only when it has none, and connects again only when its stream has no body |
| EventStream.ReadingOnLoses | rust/crates/oga-client/src/loopback.rs:94-131 | a run from the start in which a reader that keeps its stream after a parse error loses an event for good |
| EventStream.RunKeepsInv | rust/crates/oga-client/src/loopback.rs:94-160 | what is on the wire takes the shell from its cursor to the server's over every visible row left in between, after every run |
| TaskFollower.HeldIsTheLog | rust/crates/oga-client/src/bridge.rs:211-222 | under any interleaving of watches that ask and store, reads in flight and pushes: a reader that folds only pushes starting at its cursor holds exactly the log from its window's start to its cursor, in every run; so does the web view's fold in every run in which it folds no belated push |
| TaskFollower.DeltaKeepsWindowIff | web/src/state/taskDetail/state.ts:130-166 | applying a genuine push keeps the window if and only if it is not a belated one that leaves events out |
| TaskFollower.WhatAPushDoes | web/src/state/taskDetail/state.ts:130-156 | for every reader and push: folded if and only if open, not starting past the cursor, and newer or with a task row; then the larger cursor and every event of either list; a gap if and only if open and starting past the cursor; and unchanged unless folded |
| TaskFollower.APushTakesTheReaderOn | web/src/state/taskDetail/state.ts:130-156 | after every run without belated pushes, a push that starts at an open reader's cursor takes it to the push's cursor, with what was held and exactly the log in between |
| TaskFollower.WhatASnapshotDoes | web/src/state/taskDetail/state.ts:100-128 | a snapshot leaves the task open at the larger cursor with its own events, and with those held if it is older or reaches back to them |
| TaskFollower.WhatAPageDoes | web/src/state/taskDetail/state.ts:83-98 | a page leaves the larger cursor and every event of either list |
| TaskFollower.WhatIsForgotten | rust/crates/oga-client/src/bridge.rs:556-738 | a failed watch takes back its own question, and a finished read goes out as a push if and only if the shell stands where it began and it brought events or a task row |
| TaskFollower.ABelatedPushOpensAHole | web/src/state/taskDetail/state.ts:130-166 | a run from the start in which the web view folds a belated push and an event is missing |
| TaskFollower.SnapshotRepairsIff | web/src/state/taskDetail/state.ts:100-128 | whatever is held, holes and all, adopting a snapshot that is not older leaves a whole window if and only if it starts over or reaches back to the first event missing |
| TaskFollower.SnapshotKeepsWindow | web/src/state/taskDetail/state.ts:100-128 | a whole window stays whole when a snapshot that is not older is adopted |
| TaskFollower.AResyncKeepsTheHole | web/src/state/taskDetail/state.ts:100-128 | a run from the start in which the task is watched again after a hole opened, and the hole stays |
| TaskFollower.PageKeepsWindowIff | web/src/state/taskDetail/state.ts:83-98 | merging a page without the check for a restart keeps a whole window if and only if no event lies between the cursor and the page |
| TaskFollower.ALostPushIsAGap | rust/crates/oga-client/src/bridge.rs:213-217 | once the shell is past a cursor the web view has not reached, every push made since is a gap in every continuation, as long as no watch stores an answer no further than the web view |
| TaskFollower.ALateAnswerIff | rust/crates/oga-client/src/bridge.rs:556-580 | some continuation makes a push that is no gap to a web view still short of where the shell was, if and only if a watch is in flight whose answer is older than the shell |
| TaskFollower.ALateAnswerBringsThePushBack | rust/crates/oga-client/src/bridge.rs:556-580 | a run from the start in which a late answer takes the shell back, and the next push is folded by either fold with nothing missing |
| TaskFollower.AskingAgainCatchesUp | rust/crates/oga-client/src/bridge.rs:554-580 | after any run, watching the task again reaches the head, with a whole window if no belated push was folded, and otherwise exactly when the answer starts over or reaches back |
| TaskFollower.SilentAdvanceSkipsNothing | rust/crates/oga-client/src/bridge.rs:671-738 | a read that ends without a push moved the shell's cursor past no event of the log |
| TaskFollower.StretchesMerge | web/src/state/taskDetail/state.ts:56-81 | merging two stretches of the log that touch or overlap gives the stretch they span |
| TaskFollower.MergeHas | web/src/state/taskDetail/state.ts:56-81 | the merge holds each event of either list once, in order |
| Batcher.NothingIsLostInSilence | rust/apps/oga-desktop/src/bridge.rs:93-172 | in every interleaving each pointer is emitted or on its way in order, or was dropped and a stale batch came after it or is bound to |
| Batcher.BatchesAreWellFormed | rust/apps/oga-desktop/src/bridge.rs:93-147 | batches hold 1 to 100 pointers no newer than their cursor, stale ones none, and cursors never go back |
| Batcher.WhereAStaleBatchWaits | rust/apps/oga-desktop/src/bridge.rs:97-121 | a promised stale batch is held up if and only if the batcher sits in a receive without a deadline on an empty channel |
| Batcher.AStaleBatchCanWait | rust/apps/oga-desktop/src/bridge.rs:97-167 | a run from the start that gets there |
| Batcher.RunKeepsInv | rust/apps/oga-desktop/src/bridge.rs:93-172 | places, order and promises of all pointers agree after every run |
| BatchCursors.CursorsAreExact | rust/apps/oga-desktop/src/bridge.rs:90-157 | over every run a batch's cursor is exactly the larger of the one before and its last pointer's; a stale one's is exactly the largest of the one before, that of the pointers it threw away and the cursor of a pointer refused by then |
| BatchCursors.CursorsHadArrived | rust/apps/oga-desktop/src/bridge.rs:90-157 | every batch's cursor is that of a pointer that had arrived |
| BatchCursors.RefusalsAreReported | rust/apps/oga-desktop/src/bridge.rs:137-172 | over every run a stale batch with at least the cursor of each refused pointer went out after it arrived or is bound to, and no more stale batches than pointers were refused |
| BatchCursors.AStaleBatchCanBeBehind | rust/apps/oga-desktop/src/bridge.rs:93-102 | a run from the start in which a pointer that arrives during a drain is thrown away, and the stale batch's cursor is smaller than its own |
| BatchCursors.WhenABatchGoes | rust/apps/oga-desktop/src/bridge.rs:17-134 | a batch goes out if and only if its time is over, its hundredth pointer came or an overflow was drained; a pointer is refused if and only if 1024 are waiting |
| BatchCursors.TheRound | rust/apps/oga-desktop/src/bridge.rs:93-134 | the batcher sleeps exactly after a paced batch, drains exactly what the cell held, and otherwise comes back to the cell |
| BatchCursors.AloneTheLargerStays | rust/apps/oga-desktop/src/bridge.rs:159-167 | undisturbed, recording an overflow leaves the larger of the two cursors in the cell |
| BatchCursors.OtherwiseItLooksAgain | rust/apps/oga-desktop/src/bridge.rs:159-167 | the exchange loop goes on exactly while what it saw is less and is no longer there, with what is there now |
| Sidebar.ApplyEventBatch | web/src/state/sidebar-state.ts:333-341 | the loop is the fold over the pointers up to the first that asks for a reread; a stale batch without pointers asks for one |
| Sidebar.WhatAListedPointerDoes | web/src/state/sidebar-state.ts:355-411 | for every pointer to a listed task: when the list is read again, and that its row is kept as it is past a gap or for an older word, leaves with the filter, or takes the pointer's state, time, archive and any title that says something |
| Sidebar.WhatAnUnlistedPointerDoes | web/src/state/sidebar-state.ts:347-363 | for a task with no row the list is read again once, and then every fifteen seconds; no row changes |
| Sidebar.StaleBatchesRefresh | web/src/state/sidebar-state.ts:333-341 | every stale batch the batcher emits in any run makes the sidebar read its list again |
| Sidebar.StaleCanBeForgotten | web/src/state/sidebar-state.ts:333-341 | a stale batch with pointers need not |
| Sidebar.BatchesHideGaps | web/src/state/sidebar-state.ts:333-394 | for every batch the batcher emits the fold is the fold without its gap check |
| Sidebar.CursorsDoNotMatter | web/src/state/sidebar-state.ts:333-394 | that fold gives the same for the same pointers with any other cursors |
| Sidebar.NothingMeansUpToDate | web/src/state/sidebar-state.ts:347-394 | when no reread is asked for, the rows and their states are as before, each row has the newest time told of it, and tasks without a row were looked for within the last fifteen seconds |
| Sidebar.RowsStayFit | web/src/state/sidebar-state.ts:355-411 | through every batch the list shows only what its filter admits, no row loses its title, and a row whose state changed is stale |
| Sidebar.ListedRowsStayIff | web/src/state/sidebar-state.ts:175-183 | a row still on the broker's list survives a reread if and only if it is on the page or has not the time of the page's last row |
| Reconcile.DetectMoves | rust/crates/oga-context/src/index.rs:897-922 | a move is found if and only if one vanished path and one new one are alone in having its digest |
| Reconcile.MovesPairOff | rust/crates/oga-context/src/index.rs:897-922 | the moves pair paths one to one |
| Reconcile.PassesReconcile | rust/crates/oga-context/src/index.rs:292-388 | renames, drops, writes and touches together leave each listed path with its settled row and no other path with any |
| Reconcile.ReconcileIsRebuildIff | rust/crates/oga-context/src/index.rs:292-388 | the reconciled index equals a rebuild if and only if no listed file that is known and changed has become unreadable |
| Reconcile.UnreadableFileIsLeftStale | rust/crates/oga-context/src/index.rs:819-844 | a concrete file for which it does not |
| Reconcile.ReconcilesKeepUp | rust/crates/oga-context/src/index.rs:292-388 | after any sequence of disk changes and reconciles in which no indexed file becomes unreadable the index equals a rebuild from scratch |
| Reconcile.BuildWritesFresh | rust/crates/oga-context/src/index.rs:196-218 | a full build holds the parsed row of every file that parses, and nothing else |
| Reconcile.WhatIsLookedAt | rust/crates/oga-context/src/index.rs:312-328 | a file is looked at again unless its size and both its times are those held |
| Reconcile.WhatIsWritten | rust/crates/oga-context/src/index.rs:819-844 | of those looked at, a file is only stamped exactly when its contents are the ones held, and otherwise written as the row it is worth, if any |
| Reconcile.WhatAFileIsWorth | rust/crates/oga-context/src/index.rs:819-844 | a file is worth a row if and only if it is at most half a mebibyte, can be read and parses |
| Reconcile.Index.ParseAll | rust/crates/oga-context/src/index.rs:819-844 | updates and touches are those of the specification, in walk order |
| Reconcile.Index.TruncateToBudget | rust/crates/oga-context/src/index.rs:883-895 | keeps updates while their symbols fit, and says whether any was cut |
| Reconcile.Index.Build | rust/crates/oga-context/src/index.rs:196-218 | the stored rows are a rebuild of all files, or of the longest run of first files whose symbols fit the budget; partial exactly when that or the walk was cut short; the count saved is that of the symbols stored |
| Reconcile.Index.Reconcile | rust/crates/oga-context/src/index.rs:292-388 | the stored rows are the reconciled ones, less the new files for which the symbols stored before leave no room under the limit; partial exactly when there are any or the walk was cut short; the count saved stays that of the symbols stored, also when nothing changes |
| Reconcile.RetainedFits | rust/crates/oga-context/src/index.rs:336-351 | the new files kept fit the budget together, and none left out would have fitted beside them |
| Reconcile.NewFilesFit | rust/crates/oga-context/src/index.rs:336-351 | the symbols of new files in the reconciled index fit the budget, and no file left out would have fitted beside them |
| Reconcile.LimitsHold | rust/crates/oga-context/src/index.rs:292-388 | over any sequence of reconciles the count saved is that of the symbols stored, and new files with symbols come in only while those and the ones stored before keep to the limit |
| Reconcile.Index.CountSymbols | rust/crates/oga-context/src/index.rs:208-209 | the count is the sum over the stored rows |
| Reconcile.Index.Move | rust/crates/oga-context/src/store.rs:624-638 | renames the rows of the moved paths |
| Nest.Nest | rust/crates/oga-context/src/symbols.rs:90-145 | the stack's symbols are those of the declarative meaning, up to the first four hundred in source order |
| Nest.Visit | rust/crates/oga-context/src/symbols.rs:98-138 | one item makes a symbol if and only if it is not noise and nothing around it is noise or opaque |
| Nest.SortedTreesAreNested | rust/crates/oga-context/src/symbols.rs:70-71 | nodes of one tree, sorted by start and then longest first, enclose exactly what they contain |
| Nest.ParentsAreSymbols | rust/crates/oga-context/src/symbols.rs:113-135 | the innermost item around a symbol is itself a symbol and not opaque |
| Nest.SymbolsAre | rust/crates/oga-context/src/symbols.rs:98-189 | an item is a symbol if and only if it is not noise and nothing around it is noise or turned out a function, a method, a constant or a static |
| Nest.KindsAre | rust/crates/oga-context/src/symbols.rs:147-189 | a function right inside an implementation, trait, class, struct or enum is a method, a field in nothing is a constant, and every other kind is kept |
| Nest.InnermostIs | rust/crates/oga-context/src/symbols.rs:98-112 | the innermost item around another begins no later, ends after its start and no earlier than its end, and no item between the two reaches it |
| Nest.KindsFitTheirPlaces | rust/crates/oga-context/src/symbols.rs:166-189 | no field at the top, no plain function as a member, nothing inside an opaque symbol |
| Nest.NamesFollowTheNesting | rust/crates/oga-context/src/symbols.rs:113-133 | a symbol is named after all the items around it, and its parent is the innermost |
| Nest.HiddenByTheSeen | rust/crates/oga-context/src/symbols.rs:105-112 | whatever is hidden is hidden by something that is not, so skipping without a frame loses nothing |
| Calendar.DayZero | rust/crates/oga-context/src/index.rs:1287-1299 | day 0 is 1970-01-01 |
| Calendar.CivilFollowsTheCalendar | rust/crates/oga-context/src/index.rs:1287-1299 | every day number gives a valid date, and the next day number the next date |
| Calendar.CivilIsIncreasing | rust/crates/oga-context/src/index.rs:1287-1299 | later days have later dates |
| Calendar.EveryDateIsReached | rust/crates/oga-context/src/index.rs:1287-1299 | every date from the epoch on is the date of some day |
| Destinations.WrittenAsItWasRead | rust/crates/oga-config/src/lib.rs:111-202 | whatever reads as a destination reads the same once written out |
| Destinations.SurvivesWritingIff | rust/crates/oga-config/src/lib.rs:111-202 | a destination reads back as itself if and only if it could have been read: trimmed parts without colons, and no model spelled like an effort without one |
| Destinations.ReadingIsCanonical | rust/crates/oga-config/src/lib.rs:115-163 | what reading gives is of that form |
| Destinations.DestinationsAreRead | rust/crates/oga-config/src/lib.rs:115-163 | every text by its parts between colons, white space around them or not: which destination it is, or which of the six refusals |
| Destinations.TrimIs | rust/crates/oga-config/src/lib.rs:116-122 | trimming takes white space off both ends, as much as there is, and nothing else |
| LoveRules.TheClosestIsChosen | rust/crates/oga-config/src/lib.rs:465-483 | the rule that takes the work is the first of those that come closest: topic, class, general, catch-all |
| LoveRules.TheReasonIsTheTier | rust/crates/oga-config/src/lib.rs:257-270 | the reason reported for a rule is how close it comes, and names a kind the rule names |
| LoveEditor.ReadLoveList | rust/crates/oga-config/src/lib.rs:1204-1388 | the reader's loop takes a list if and only if the specification does, with the same rules |
| LoveEditor.ReleaseKinds | rust/apps/oga-cli/src/main.rs:4018-4045 | the two passes over the rules leave what the specification leaves |
| LoveEditor.WrittenReadsBack | rust/apps/oga-cli/src/main.rs:3876-3922 | in either shape, the rule written reads back with its destinations and kinds |
| LoveEditor.SetKeepsTheReaderIff | rust/apps/oga-cli/src/main.rs:3862-3946 | the reader takes the edited list if and only if no second catch-all arises; the new rule owns exactly its kinds, all others keep their owner, and the catch-all stays unless spelled as an empty list |
| LoveEditor.ClearUnownsExactly | rust/apps/oga-cli/src/main.rs:3934-3936 | clearing unowns exactly the kinds named, or everything |
| LoveEditor.WorkGoesToItsOwner | rust/crates/oga-config/src/lib.rs:465-483 | the choice is the owner of the topic, else of the class, else of general work, else the catch-all |
| LoveEditor.OtherWorkIsUndisturbed | rust/apps/oga-cli/src/main.rs:3862-3946 | an edit leaves alone all work that none of its kinds describes |
| LoveMigration.TakeLoveRules | rust/apps/oga-cli/src/main.rs:3948-4014 | the rules taken out are the list and then one rule a flag, and the models left have neither flags nor emptied tables |
| LoveMigration.WhatAFileReads | rust/crates/oga-config/src/lib.rs:1102-1199 | a file is refused exactly for an unknown effort, two flags, a flag beside a list, or a list that is refused; otherwise it reads as its flag's catch-all rule or its list |
| LoveMigration.MarksAre | rust/crates/oga-config/src/lib.rs:1118-1169 | the flags found are exactly the loved models, each with its worker, name and effort |
| LoveMigration.WhatIsLeft | rust/apps/oga-cli/src/main.rs:3948-4014 | a model loses its flag and the effort that went with it, and goes if nothing else is left |
| LoveMigration.FlagKeepsItsMeaningIff | rust/apps/oga-cli/src/main.rs:3948-4002 | a migrated flag means what it meant if and only if its name can be spelled in a rule |
| LoveMigration.CleanedIsUnmarked | rust/apps/oga-cli/src/main.rs:3948-4014 | no flag is left behind, nor anything new for the reader to refuse |
| LoveMigration.TakenRulesMeanTheSameIff | rust/crates/oga-config/src/lib.rs:1102-1199 | the rules taken out to be edited are the rules the reader sees in the file if and only if a flag's name can be spelled |
| LoveMigration.EditKeepsTheFile | rust/apps/oga-cli/src/main.rs:3862-3946 | from file to file, for every file the reader takes: no flag is left, when exactly the reader takes the result, and who owns what in it |
| VirtualList.RowTops | web/src/state/sidebar-projection.ts:195-202 | each top is the one before and the height of its heading or its task, at least one pixel |
| VirtualList.TopsRise | web/src/state/sidebar-projection.ts:195-202 | the tops rise strictly, whatever the heights |
| VirtualList.TopsAbove | web/src/state/sidebar-projection.ts:225-234 | the search finds how many rows begin at or above the offset |
| VirtualList.TopsAtOrAbove | web/src/state/sidebar-projection.ts:237-246 | the search finds how many rows begin above the offset |
| VirtualList.VisibleRange | web/src/state/sidebar-projection.ts:209-222 | the range is the specified one, and within the list |
| VirtualList.RangeIsExactIff | web/src/state/sidebar-projection.ts:209-222 | without overscan it is exactly the rows on screen, if and only if the list is not scrolled past its end with its last row's place in view |
| VirtualList.OverscanWidens | web/src/state/sidebar-projection.ts:209-222 | overscan adds at most that many rows on each side |
| Grouping.SortingIsStable | web/src/state/sidebar-projection.ts:480-498 | sorting keeps the tasks, orders them, and leaves tasks of one rank as they came |
| Grouping.WhatComesFirst | web/src/state/sidebar-projection.ts:480-531 | a sorted list reads newest first, tasks without a time last, or by how much their states need the user, unread first within a state where that is told |
| Grouping.ProjectsAreNamed | web/src/state/sidebar-projection.ts:266-273 | a project goes by the last part of its path that has any text, or by the whole path when it is only slashes |
| Grouping.Root | web/src/state/sidebar-projection.ts:409-422 | the loop is the walk up the parents |
| Grouping.FamilyStaysTogetherIff | web/src/state/sidebar-projection.ts:409-422 | where parents do not run in circles, a task and its parent have one root if and only if the task is within thirty-two steps of the top |
| Grouping.FamilyHasOneRoot | web/src/state/sidebar-projection.ts:409-422 | within that depth the root is the top |
| Grouping.CircleStaysTogetherIff | web/src/state/sidebar-projection.ts:409-422 | where parents run in a circle, a task on it comes under its parent's root if and only if it is its own parent, and one leading to it if and only if the walk comes round within thirty-two steps |
| Grouping.ACircleComesApart | web/src/state/sidebar-projection.ts:409-422 | two tasks that are each other's parents get different roots |
| TaskGroups.Bucket | web/src/state/sidebar-projection.ts:424-440 | the groups stand in order of first appearance, each with its own tasks in order and its first title |
| TaskGroups.StatusGroups | web/src/state/sidebar-projection.ts:463-478 | one group for each state some task is in, by priority |
| TaskGroups.EveryTaskIsListedOnce | web/src/state/sidebar-projection.ts:308-335 | for every grouping, sort and project filter the groups have different ids and hold the tasks in scope once each, stably sorted |
| TaskGroups.WhatIsInScope | web/src/state/sidebar-projection.ts:308-318 | a project filter keeps that project's tasks in order while there are any, and hides nothing otherwise |
| TaskGroups.WhereATaskIsListed | web/src/state/sidebar-projection.ts:320-335 | a task in scope is listed under its project, the task its parents lead up to, or its state |
| TaskGroups.HowGroupsAreTitled | web/src/state/sidebar-projection.ts:308-335 | a project group has the folder's name, a status group its label, a family the heading of a task's root, and neither a list that is not grouped nor a task alone without a parent has a title |
| ProjectTree.Build | web/src/state/sidebar-projection.ts:342-367 | the two passes build the specified tree, and put every group in it once |
| ProjectTree.EveryGroupIsPlacedOnce | web/src/state/sidebar-projection.ts:342-367 | every group is in the tree once, no two nodes share an id, and a folder holds all its projects, at least two, and is none itself |
| ProjectTree.FoldersAre | web/src/state/sidebar-projection.ts:508-514 | a project's folder is its path before the last part, with a slash at its end or not; one in no folder, or right under the root, is its own |
| Toasts.TimersStayInStep | web/src/state/toast.ts:52-224 | over every run: at most five toasts, dismissal timers for exactly those with a deadline, stall timers for exactly the pending, no other timer left running; inside a pause a dismissal timer runs if and only if its toast was said or settled as a success after the last pause, outside for every toast that goes by itself; and time outside pauses, time run inside them and time left are always four seconds, with none run inside for a toast that did not begin there |
| Toasts.GoesAfterFourSeconds | web/src/state/toast.ts:194-209 | a dismissal timer that is on time takes its toast away after four seconds; all four lie outside pauses if and only if the timer has not run inside one, which holds of every toast that did not begin in a pause |
| Toasts.AToastGoesInsideAPause | web/src/state/toast.ts:147-167 | a run from the empty store in which a toast said inside a pause goes with all its four seconds inside it |
| Toasts.WhatEachDoes | web/src/state/toast.ts:86-209 | which toasts each operation leaves: said last, settled in place as the kind asked for, removed alone, cleared all, none with a deadline after a pause and all timed ones with one after a resume |
| Toasts.WhoMakesRoom | web/src/state/toast.ts:147-167 | a new toast comes last, with four seconds if it is a success or information, and the first goes exactly when there are five already |
| Toasts.APendingToastIsTimed | web/src/state/toast.ts:86-98 | a pending toast comes last, and its stall timer is due thirty seconds later |
| Toasts.AStalledToastFails | web/src/state/toast.ts:86-98 | when that timer goes off its toast is still pending and becomes an error that stays, in its place |
| Toasts.StepKeepsTime | web/src/state/toast.ts:86-209 | each operation keeps timers, clock and the account of time in and outside pauses |
| Toasts.PauseKeepsInv | web/src/state/toast.ts:124-135 | pausing leaves no dismissal timer running |
| Toasts.ResumeKeepsInv | web/src/state/toast.ts:137-145 | resuming sets a timer for exactly the toasts that waited |
| ToastStores.ToastStore.Add | web/src/state/toast.ts:147-167 | the new toast comes last, the oldest beyond five go with their timers |
| ToastStores.ToastStore.Pending | web/src/state/toast.ts:86-98 | a pending toast with its stall timer |
| ToastStores.ToastStore.Pause | web/src/state/toast.ts:124-135 | the object after pausing |
| ToastStores.ToastStore.Resume | web/src/state/toast.ts:137-145 | the object after resuming |
| ToastStores.ToastStore.GoOff | web/src/state/toast.ts:89-97 | the object after a timer went off |
| OutcomeViews.WhereTheOpenRowStands | web/src/state/task-outcome-views.ts:108-145 | after every run in which the open task keeps its outcome, with fresh and stale rows observed and marking it in any order: where its row stands, from the store it began with, the first row seen and the first that marked it |
| OutcomeViews.AnUnchangedRowStays | web/src/state/task-outcome-views.ts:104-152 | in particular for a row that does not change, fresh or stale |
| OutcomeViews.AFreshenedRowStaysIff | web/src/state/task-outcome-views.ts:108-145 | while only fresh rows mark it, the row stays unless another outcome in its state was viewed; then a stale row stays exactly as long as it is shown stale and unmarked, and a fresh one exactly when it is not so |
| OutcomeViews.AFreshenedRowMoves | web/src/state/task-outcome-views.ts:108-131 | a run from the empty store after which a stale row, opened and read again, moves among the unread ones |
| OutcomeViews.AMarkedStaleRowStaysIff | web/src/state/task-outcome-views.ts:133-185 | when a stale row is the first to mark the task, the row read afterwards stands where the stale one stood if and only if that was viewed or the outcome stored is the task's own |
| OutcomeViews.MarkingAStaleRowMovesIt | web/src/state/task-outcome-views.ts:133-135 | a stale row that marks its task viewed moves |
| OutcomeViews.TheNewestAreKept | web/src/state/task-outcome-views.ts:77-84 | of more than 512 entries exactly 512 are kept, none dropped that is newer than one kept |
| OutcomeViews.OfOneTimeTheFirstAreKept | web/src/state/task-outcome-views.ts:77-84 | of the entries of one time the first are kept |
| OutcomeViews.RunsAreSound | web/src/state/task-outcome-views.ts:125-192 | one entry a task and only the open task pinned, after every run |
| OutcomeViews.TaskOutcomeViewStore.constructor | web/src/state/task-outcome-views.ts:86-91 | a store begins with the newest of the stored entries and no task open |
| OutcomeViews.TaskOutcomeViewStore.Observe | web/src/state/task-outcome-views.ts:171-185 | the object after one row is observed |
| OutcomeViews.TaskOutcomeViewStore.Observes | web/src/state/task-outcome-views.ts:125-131 | the object after a list of rows is observed |

## Left out

- HTTP requests, URLs, the table of broker calls, sockets, pipes, processes, SQLite and file reads: their answers are inputs.
- JSON, YAML and UTF-8 text: frames, rules and settings are parsed values; bytes appear only in the two framings.
- `Connection`: cancellation and notifications are frames without an id of ours; requests the agent makes of the client, and a connection dropped with callers waiting, are not modelled.
- The words added to errors from an agent's stderr, and the shutdown of its process.
- `Session.HowPromptsEnd`: which words the protocol's schema reads as a stop reason is an input.
- `Session.SteerIsNotRetrySafe`: a steer's own protocol beyond that; it makes no promise of this kind.
- `EventStream.ExactlyOnce`: the server reads its floor a moment before the rest of its answer, and up to a hundred rows before it sends them; here an answer is made at once, and a row is read when it is sent. Subscriptions to chosen tasks or kinds are not part of it.
- `Sse.ParseBlock`: trims ASCII whitespace only, where the source also trims a no-break space and the like off a name or the start of a data line.
- `Sse.EncodedStreamsReadBack`: takes data lines that begin with such whitespace, which the source would trim.
- `Sse.ReadEvents`: takes the same data lines.
- `TaskFollower.HeldIsTheLog`: the page that the web view reads from the broker when a watch fails (web/src/state/taskDetail/controller.ts:203-220) is not a step of its runs; `TaskFollower.PageKeepsWindowIff` says when it opens a hole. A task on screen loses no rows, since cleanup spares it; task rows that the broker answers without, loading earlier pages, and view bookkeeping are not part of it.
- `Batcher.NothingIsLostInSilence`: assumes cursors arrive in order and above zero, as the stream hands them over; the end of the stream, which closes the channel, is not modelled.
- `Sidebar.ApplyEventBatch`: timestamps are numbers already, and the clock stands still within one batch; connection labels and paging are not part of it.
- `Reconcile.ReconcilesKeepUp`: assumes that equal size and times mean equal contents, that no limit is hit, and that the digest is injective; file walking, seeds and routes are not part of it.
- `Nest.Nest`: the sort, the removal of repeated nodes and the adapters' queries come before it; an adapter's changes to a symbol are an arbitrary function, lines, signatures and comments are not part of a symbol.
- Tree-sitter, the ranking of search results and its floating-point scores.
- `LoveMigration.EditKeepsTheFile`: turning a model back on, which may write under `models`, is not part of the edit; scopes and error texts are left out.
- `VirtualList.RangeIsExactIff`: lengths are exact reals, without rounding.
- `TaskGroups.EveryTaskIsListedOnce`: totals from the broker, search, collapsed groups and the fold of long finished groups are not part of it; titles of tasks are inputs.
- `Toasts.TimersStayInStep`: the viewport is its pauses and resumes alone, from web/src/components/ToastViewport.tsx:149-155; titles, actions and listeners, which may call back into the store, are left out.
- `OutcomeViews.WhereTheOpenRowStands`: at most 512 tasks are tracked, so that no entry is dropped; outcome keys are compared as values, taking JSON text to be injective; storage and listeners are left out.
- React components, menus, tray, windows, routing, preferences, formatting and the broker's own scheduler.
