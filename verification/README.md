# Verified model of the ClawChat gateway's state machines and text codecs

The gateway connects a chat agent to ClawChat. Most of it talks to a host program, but inside it sit
several small machines whose rules have to hold in every interleaving or for every text. This project
models them in Dafny and proves what they promise.

| files | what they model |
|---|---|
| `CoalescerModel`, `CoalescerProofs`, `CoalescerTheorems`, `Coalescer` | the queue that gathers group messages: idle and maximum-wait timers, busy waiters, forced flushes, in every interleaving |
| `CoalescerDispatches`, `CoalescerTimers` | what the dispatched messages carry and when a queue goes out; the idle delay and the patience with a busy chat, read off the run |
| `BatchMerge`, `BatchContents` | merging a batch into one message, also when its members are merged batches, and the id that triggers the turn; who is mentioned and who speaks in it |
| `Calendar`, `Timestamps`, `TimeGrammar`, `TimeTexts` | the day formula of the history reader over its whole year range; the ISO 8601 printer and parser; the texts that are times, and what each says |
| `PathSegments` | the dot-segment loop of the URL cleaner against section 5.2.4 of RFC 3986 |
| `HistoryPaging`, `PagingTheorems`, `PagingExactness`, `ReplyPack`, `PagingReplies` | paging through the ledger with a cursor of two forms; packing a reply into its UTF-16 budget; both together |
| `PlainReads`, `DayBounds` | the single read: without arguments, around an id, refused; bare dates as bounds |
| `TextLines`, `MemoryAppend`, `MemoryParagraphs`, `MemoryCodec`, `MemoryRoundTrip`, `MemoryTheorems`, `MemoryFile` | the memory file: a metadata block and a free body in one text, and appends that skip paragraphs already present |
| `InputOwnership` | which asyncio task may work on which inbound message |
| `ReplyStream`, `StreamOverlap`, `StreamTexts`, `RunTables`, `StreamedRuns` | the frames of a streamed reply, their texts, and its operations suspended at their sends; the tables of active runs; all runs with their streams and tables |
| `RecencyCache`, `RecentEmits`, `ServerRejections` | bounded recency dictionaries; the duplicate-send window; the gate for rejected conversations |
| `GroupSettings`, `SettingsGate` | settings pulled by fetches that finish out of order; the gate that holds messages back meanwhile |
| `TokenRefresh` | the retry loop for the token refresh and its spacing in real time |
| `CatchUpLines`, `DeliveredIds`, `CatchUp`, `CatchUpRows` | the group history put in front of a turn: which rows, in which order, and which ids are recorded |
| `Common` | options, flattening, joining, first-occurrence filters, stripping |

How the models are built:

* One step is one stretch of code between two awaits. A run is any sequence of events; an event that
  is not possible in a state changes nothing. Busy probes, server replies, random jitter, clocks and
  the order of events are free choices, so a theorem over all event sequences covers every interleaving.
* Times are whole milliseconds.
* What the program updates in place is a class here, and each of its methods is proved equal to a function
  on values; the theorems are about those functions and about runs made of them.
* Loops of the program are loops here, with their invariants.

Where the code does not keep a promise on all inputs, the exact condition is proved, or a run that breaks it:

* After a reconnect's clear, the gate is open right after the new pull starts exactly when in between the previous
  pull ended or a waiter of that generation timed out (`SettingsGate.ReconnectGap`,
  `SettingsGate.ReconnectCanOpenEarly`).
* A metadata write keeps the body exactly when the text after the old block does not begin with two newlines
  (`MemoryTheorems.MetadataWriteKeepsBody`).
* Appending the same content again changes nothing exactly when it has a non-blank line
  (`MemoryFile.AppendTwiceIsAppendOnce`).
* Operations on one run may overlap at their sends. A run is safe, in whatever order the suspended ones
  go on, exactly when each operation began under the guard `StreamOverlap.MayBegin`
  (`StreamOverlap.SafeExactlyWhenGuarded`). The program has no such guard: an edit during the done frame sends
  an add after it (`StreamOverlap.UpdateDuringFinishBreaks`), and a run retired while it opens is left with an
  open stream (`StreamOverlap.RetireDuringOpeningLeaves`).
* The deltas of a stream spell out its text exactly when it is the first stream of its run
  (`ReplyStream.DeltasGiveText`); a reply finished but not retired can open a second one
  (`StreamOverlap.ReopenedStreamFallsShort`).
* A run that leaves the tables, and on which nothing begins afterwards, is left with a stream without an end
  exactly when it did not retire but was dropped, with its dissolved chat or by a run of the same id, while its
  stream was open or opening and no end under way (`StreamedRuns.LostExactlyWhen`,
  `StreamedRuns.DissolvedWhileOpening`).
* Every walk along the cursors reads the range exactly when no row with an unreadable time stands, up to the end
  of the range, after an entry that has the same time as an earlier one
  (`PagingExactness.CompleteExactlyWhenTight`, `PagingExactness.UnreadableRowLeaks`).
* Following the cursors ends exactly when, while something is left, some later reply shows an entry
  (`PagingExactness.EndsExactlyWhenShowing`). A truncated reply shows one exactly when header and cursor leave
  three units (`ReplyPack.TruncatedShowsOneExactlyWhen`); with that room in every reply the walk ends
  (`PagingReplies.RoomyWalkEnds`), and a `to` with 12000 digits behind its second takes it
  (`PagingReplies.PaddedRequestFails`).
* Merging merged batches keeps the list of speakers exactly under the condition of
  `BatchMerge.SpeakersKeptExactlyWhen`; mentions, media and the mentioned flag it always keeps.
* The bounded caches answer like the full log while their bound is not exceeded, and not beyond it
  (`RecentEmits.CrowdedMissesDuplicate`, `ServerRejections.CrowdedLetsOneThrough`).

`dafny verify dfyconfig.toml` verifies the whole project.

## Model

| member | source | states |
|---|---|---|
| CoalescerTheorems.NoStrandedBatch | clawchat_gateway/group_message_coalescer.py:75-294 | in every reachable state a key with queued messages has a live timer, waiter or forced flush that will flush it |
| CoalescerTheorems.RegisteredIffWaiting | clawchat_gateway/group_message_coalescer.py:75-294 | the three registries name exactly the waiting timers and waiters; a dispatching task is registered nowhere |
| CoalescerTheorems.DispatchUndisturbed | clawchat_gateway/group_message_coalescer.py:99-139 | no step but its own end changes a dispatch in flight |
| CoalescerTheorems.ShutdownSparesDispatches | clawchat_gateway/group_message_coalescer.py:108-127 | shutting down cancels every waiting task and no dispatch |
| CoalescerTheorems.Conservation | clawchat_gateway/group_message_coalescer.py:75-294 | per key, the batches handed over, joined in order, and then the queue are the messages enqueued |
| CoalescerTheorems.FlushDeadline | clawchat_gateway/group_message_coalescer.py:75-106 | a queue has a maximum-wait timer due at its oldest arrival plus max(max_wait, its delay), or a waiter or forced flush in charge |
| CoalescerTheorems.QueueCanBeDelivered | clawchat_gateway/group_message_coalescer.py:141-294 | from every reachable state some continuation without new messages hands the whole queue over |
| CoalescerDispatches.EveryRawIsDelivered | clawchat_gateway/group_message_coalescer.py:231-294 | in every run the raw messages inside the messages dispatched for a key, in order, and then those queued are the raw messages enqueued for it |
| CoalescerDispatches.OneDispatchPerBatch | clawchat_gateway/group_message_coalescer.py:231-294 | every batch handed over is dispatched as one message |
| CoalescerDispatches.EveryMentionIsDelivered | clawchat_gateway/group_message_coalescer.py:249-294 | dispatched and queued messages say what the enqueued ones say: mentions by first occurrence, media, the mentioned flag |
| CoalescerDispatches.QueueGoesOutExactlyWhen | clawchat_gateway/group_message_coalescer.py:129-248 | a queue leaves in a step if and only if a timer, waiter or forced flush of its key gets through on a free chat, or a waiter's patience is over |
| CoalescerDispatches.BusyQueueIsHeld | clawchat_gateway/group_message_coalescer.py:231-248 | a timer that fires on a busy chat dispatches nothing, keeps the queue and leaves it with a waiter |
| CoalescerTimers.IdleFollowsLastMessage | clawchat_gateway/group_message_coalescer.py:75-106 | in every run a waiting idle timer is due its delay after the last message of its key |
| CoalescerTimers.MessageStartsIdle | clawchat_gateway/group_message_coalescer.py:75-106 | after a message there is such a timer, with the delay the message asked for or the configured one |
| CoalescerTimers.BusyQueueIsForcedExactlyWhen | clawchat_gateway/group_message_coalescer.py:199-229 | a waiter that finds the chat busy forces the flush if and only if the busy timeout has passed since it began, or since it was last told to keep waiting, and it is not told so now; otherwise it polls again an interval later |
| CoalescerProofs.RunKeepsInv | clawchat_gateway/group_message_coalescer.py:43-294 | every registry fits its tasks and every queue is covered, after every sequence of events |
| CoalescerProofs.TakeKeeps | clawchat_gateway/group_message_coalescer.py:231-294 | taking a batch cancels the other timer and leaves the registries fitting |
| CoalescerProofs.FlushCovers | clawchat_gateway/group_message_coalescer.py:231-248 | a flush that finds the chat busy leaves the queue with a waiter |
| Coalescer.GroupMessageCoalescer.Enqueue | clawchat_gateway/group_message_coalescer.py:75-97 | queues the message, restarts the idle timer, starts the maximum-wait timer when there is none |
| Coalescer.GroupMessageCoalescer.ResetIdleTask | clawchat_gateway/group_message_coalescer.py:99-106 | cancels the old idle timer and registers a new one |
| Coalescer.GroupMessageCoalescer.Cancel | clawchat_gateway/group_message_coalescer.py:108-127 | the loop over the three registries cancels every registered task, and all tables are emptied, as the shutdown function says |
| Coalescer.GroupMessageCoalescer.BeginFlushNow | clawchat_gateway/group_message_coalescer.py:129-139 | the whole new state and the message dispatched: takes both timers out and waits for them, dispatching nothing, or flushes at once when there is none |
| Coalescer.GroupMessageCoalescer.ResumeFlush | clawchat_gateway/group_message_coalescer.py:129-175 | the whole new state and the message dispatched, as the step function says, when a timer fired or a forced flush's timers ended |
| Coalescer.GroupMessageCoalescer.HoldUntilIdle | clawchat_gateway/group_message_coalescer.py:186-197 | starts one busy waiter per key |
| Coalescer.GroupMessageCoalescer.PollWaiter | clawchat_gateway/group_message_coalescer.py:199-229 | the waiter sleeps again, gets a new deadline, or flushes: the whole new state and the message dispatched |
| Coalescer.GroupMessageCoalescer.FlushIn | clawchat_gateway/group_message_coalescer.py:231-294 | holds, ends, or hands the batch over and dispatches its merge: the whole new state, as the step function says |
| BatchMerge.MergeMentions | clawchat_gateway/group_message_coalescer.py:250-264 | the loop over batch and mentions gives each identified mention once, at its first occurrence |
| BatchMerge.MergeBatch | clawchat_gateway/group_message_coalescer.py:249-294 | the dispatched message is the merge of the batch |
| BatchMerge.MergedMessageMentions | clawchat_gateway/group_message_coalescer.py:249-294 | reading a merged message's mentions back gives the merged list |
| BatchMerge.RemergingLosesNothing | clawchat_gateway/group_message_coalescer.py:249-294 | merging merged batches gives the mentions, media and mentioned flag of merging the originals |
| BatchMerge.SpeakersKeptExactlyWhen | clawchat_gateway/inbound.py:68-75 | two levels of merging keep the speakers if and only if the latest part covers the speakers that synthetic parts drop |
| BatchMerge.RemergingKeepsSpeakers | clawchat_gateway/inbound.py:68-75 | under that condition at every level, any nesting keeps the speakers |
| BatchMerge.TriggerId | clawchat_gateway/adapter.py:5829-5838 | the descent through nested batches returns the id of the frame it ends in |
| BatchMerge.LastFrameIsLastOriginal | clawchat_gateway/adapter.py:5829-5838 | that frame is the one of the last original message, whatever the earlier ones carry |
| BatchMerge.TriggerIsLastOriginal | clawchat_gateway/adapter.py:5829-5838 | through up to 31 levels the trigger id is that of the last original message, beyond them there is none |
| BatchContents.MentionedExactly | clawchat_gateway/group_message_coalescer.py:250-264 | a user is among a merged message's mentions if and only if some message of the batch mentions it, by entry or by bare id |
| BatchContents.FirstByPlaces | clawchat_gateway/group_message_coalescer.py:250-264 | the first-occurrence filter keeps exactly the items that no earlier one shares its key with, in order |
| BatchContents.SpeakersExactly | clawchat_gateway/group_message_coalescer.py:276-279 | a merged batch names exactly those who speak in it, none twice |
| Calendar.NextDayIsOneMore | clawchat_gateway/chat_history.py:258-287 | the day formula rises by exactly one from each date of the proleptic Gregorian calendar to the next |
| Calendar.FormulaCountsDays | clawchat_gateway/chat_history.py:258-287 | the formula is the number of days counted from the epoch, backwards for earlier dates |
| Calendar.SameNumberSameDate | clawchat_gateway/chat_history.py:258-287 | two dates with the same day number are the same date |
| Calendar.DateOfDayNumber | clawchat_gateway/chat_history.py:314-320 | the date found by counting is the inverse of the formula |
| Calendar.YearRange | clawchat_gateway/chat_history.py:314-320 | every printable time has a year of at most six digits |
| Timestamps.ParserInvertsPrinter | clawchat_gateway/chat_history.py:258-320 | parsing the printed form of any whole millisecond count up to 8.64e15 in size gives it back |
| Timestamps.StampInjective | clawchat_gateway/chat_history.py:314-320 | different times print differently |
| TimeGrammar.WrittenIsRead | clawchat_gateway/chat_history.py:258-287 | every text the grammar allows, in each of its forms, is read as the fields it spells |
| TimeTexts.ReadExactlyWhenWritten | clawchat_gateway/chat_history.py:45-45 | a text is read as a time if and only if the grammar allows it |
| TimeGrammar.NumericZoneIsRead | clawchat_gateway/chat_history.py:273-285 | a time with a zone +hh, +hhmm or +hh:mm of either sign is the same time in UTC less what the zone is ahead, or none if that is out of range |
| TimeGrammar.PrintedInZone | clawchat_gateway/chat_history.py:258-320 | a printed time with such a zone in place of its Z is read as the printed time less what the zone is ahead |
| TimeGrammar.OverflowCarries | clawchat_gateway/chat_history.py:264-272 | months past December and days past the end of a month count on into the next year and month |
| TimeGrammar.FractionIsCut | clawchat_gateway/chat_history.py:263-263 | a fraction of any length is read as its whole millionths |
| PathSegments.NormaliseSegments | clawchat_gateway/chat_history.py:109-121 | the loop over the segments with its stack |
| PathSegments.LoopIsRfc3986 | clawchat_gateway/chat_history.py:109-121 | on a path with a leading slash and no encoded dots it is the algorithm of section 5.2.4 of RFC 3986 |
| PathSegments.LoopReadsEncodedDots | clawchat_gateway/chat_history.py:109-121 | encoded dots count as dots: the result is that of the decoded path |
| PathSegments.DotsAreWritten | clawchat_gateway/chat_history.py:109-121 | a segment counts as dots if and only if it is one or two dots, each written ., %2e or %2E |
| PathSegments.NormaliseIsIdempotent | clawchat_gateway/chat_history.py:109-121 | no dot segment is left, and normalising again changes nothing |
| PagingTheorems.PagingIsComplete | clawchat_gateway/chat_history.py:499-567 | on a ledger that does not leak every walk shows the range once and in order, ends exactly when all is shown, and does end if its replies show entries |
| PagingTheorems.CursorResumes | clawchat_gateway/chat_history.py:552-567 | the next cursor of either form continues at the first entry not shown, tied times and replies that show nothing included |
| PagingTheorems.ReadFromPosition | clawchat_gateway/chat_history.py:532-551 | a read that resumes at a position returns the next entries of the range |
| PlainReads.NewestAreShown | clawchat_gateway/chat_history.py:532-551 | a read without arguments shows as many entries as asked for, or all, such that each one left out stands before each one shown, and no next one |
| PlainReads.AroundIsCentred | clawchat_gateway/chat_history.py:535-544 | around an entry, off its own time, a read shows a run of consecutive entries of that many with the named one in the middle unless the ledger ends first |
| PlainReads.OwnTimeGoesOn | clawchat_gateway/chat_history.py:540-551 | from an entry's own time on, a read shows the ledger from that entry to the end bound, cut to the limit, with the next entry |
| PlainReads.RefusedExactlyWhen | clawchat_gateway/chat_history.py:323-332 | a read is refused if and only if a bound is no time or no entry has the named id |
| DayBounds.DateIsDayBound | clawchat_gateway/chat_history.py:323-332 | a bare date is read as the first or the last millisecond of its day at the host |
| DayBounds.RangeOfOneDay | clawchat_gateway/chat_history.py:323-332 | at a host with a fixed zone the range from a date to the same date holds exactly the whole milliseconds of that day |
| PagingExactness.CompleteExactlyWhenTight | clawchat_gateway/chat_history.py:499-567 | over all stored ledgers and range requests, every walk reads the range if and only if no unreadable row up to its end stands after an entry that ties with an earlier one |
| PagingExactness.LeakBreaks | clawchat_gateway/chat_history.py:532-567 | on any other ledger replies of one entry each show a foreign row or never end |
| PagingExactness.UnreadableRowLeaks | clawchat_gateway/chat_history.py:532-567 | two messages of one moment and a row that cannot be read make such a ledger |
| PagingExactness.EndsExactlyWhenShowing | clawchat_gateway/chat_history.py:552-567 | following the cursors ends if and only if, as long as something is left, a later reply shows an entry |
| PagingReplies.RoomyWalkEnds | clawchat_gateway/chat_history.py:476-567 | with three units of room in every packed reply the whole range is shown within as many replies as it has entries |
| PagingReplies.TightReplyStalls | clawchat_gateway/chat_history.py:476-567 | a truncated reply without that room shows nothing and its cursor resumes at the same place |
| PagingReplies.HugeBoundNeverAdvances | clawchat_gateway/chat_history.py:476-567 | with an end bound of 12000 units a range longer than the limits is never begun |
| PagingReplies.PaddedRequestFails | clawchat_gateway/chat_history.py:258-567 | such a bound is accepted as a time: a concrete request that shows nothing however often its cursor is followed |
| HistoryPaging.MadeIsReadable | clawchat_gateway/chat_history.py:323-402 | the cursor's time text is read as the entry's time, for every row whose time can be read, bare dates included |
| HistoryPaging.NumericIsReadable | clawchat_gateway/chat_history.py:304-320 | every time given as a number is readable |
| HistoryPaging.TimeReaderReadsStamps | clawchat_gateway/chat_history.py:304-332 | a printed time is read back as a time argument, a number printed for no time is refused |
| ReplyPack.FileMarkers | clawchat_gateway/chat_history.py:447-456 | as many whole file markers as fit 2048 units, then an ellipsis if files remain |
| ReplyPack.Fit | clawchat_gateway/chat_history.py:483-489 | the greatest number of entries that fit the budget |
| ReplyPack.Pack | clawchat_gateway/chat_history.py:476-496 | the reply has the header, that many entries and the cursor after the last one shown |
| ReplyPack.ReplyWithinBudget | clawchat_gateway/chat_history.py:476-496 | a packed reply has at most 12000 UTF-16 units |
| ReplyPack.TruncatedShowsOneExactlyWhen | clawchat_gateway/chat_history.py:476-496 | a truncated reply shows an entry if and only if header and cursor leave three units |
| ReplyPack.MostThatFitUnique | clawchat_gateway/chat_history.py:483-489 | budget and entries determine how many are shown |
| ReplyPack.CountingHeadersGrow | clawchat_gateway/chat_history.py:532-551 | headers that count the entries never shrink as the count grows |
| TextLines.SplitLinesJoin | clawchat_gateway/clawchat_memory.py:396-398 | splitting at newlines distributes over any newline of the text |
| MemoryAppend.ParagraphsKeepLines | clawchat_gateway/clawchat_memory.py:393-398 | splitting at blank lines keeps every non-blank line in order |
| MemoryAppend.ParagraphsAreUnbroken | clawchat_gateway/clawchat_memory.py:393-393 | the text is cut at every blank line: no paragraph has one inside |
| MemoryAppend.DropDuplicateParagraphs | clawchat_gateway/clawchat_memory.py:407-430 | the loop drops the paragraphs already present, counts them, and joins the others as the sifting function says |
| MemoryAppend.SiftAllAccounts | clawchat_gateway/clawchat_memory.py:407-430 | after it every non-blank paragraph is a run of the body's lines followed by the kept ones |
| MemoryParagraphs.SiftingKeepsFresh | clawchat_gateway/clawchat_memory.py:407-430 | kept are, in order and without blank lines around, the non-blank paragraphs whose lines stand neither in the body nor before in the content; the others are counted |
| MemoryParagraphs.JoinedAreSplit | clawchat_gateway/clawchat_memory.py:393-430 | paragraphs joined for an append are split into the same paragraphs again |
| MemoryParagraphs.KeptParagraphsStayApart | clawchat_gateway/clawchat_memory.py:407-430 | when something is skipped, splitting the addition at blank lines gives back exactly the kept paragraphs, in number and order |
| MemoryAppend.AppendIsSafe | clawchat_gateway/clawchat_memory.py:385-464 | the old body stays a prefix and every non-blank paragraph stands in the new one as consecutive lines |
| MemoryAppend.NewContentIsVerbatim | clawchat_gateway/clawchat_memory.py:407-430 | content none of whose paragraphs is present is appended to the letter |
| MemoryAppend.AppendIsIdempotent | clawchat_gateway/clawchat_memory.py:385-464 | appending again changes nothing if and only if the content has a non-blank line |
| MemoryCodec.NormalizeLineEndings | clawchat_gateway/clawchat_memory.py:150-151 | no carriage return is left, and a text without one is unchanged |
| MemoryCodec.NormalizeValue | clawchat_gateway/clawchat_memory.py:146-147 | no line break is left, and a value without one is unchanged |
| MemoryCodec.BreakBecomesNewline | clawchat_gateway/clawchat_memory.py:150-151 | every CR LF and every lone CR becomes one newline, the parts around it as they are |
| MemoryCodec.RunBecomesSpace | clawchat_gateway/clawchat_memory.py:146-147 | a whole run of line breaks in a value becomes one space |
| MemoryCodec.FindMetadataBlock | clawchat_gateway/clawchat_memory.py:154-174 | the loop over the lines finds the block that the search function finds |
| MemoryCodec.ParseMetadata | clawchat_gateway/clawchat_memory.py:177-184 | the loop reads the entries line by line, later keys overriding earlier ones |
| MemoryRoundTrip.PlacedIsFound | clawchat_gateway/clawchat_memory.py:154-174 | a block after lines without start marker is found where it stands, with its lines |
| MemoryRoundTrip.FoundIsPlaced | clawchat_gateway/clawchat_memory.py:154-174 | wherever a block is found, the text is such lines, that block and a rest |
| MemoryTheorems.EntriesRoundTrip | clawchat_gateway/clawchat_memory.py:177-198 | entries written as lines are read back, their line breaks turned to spaces |
| MemoryTheorems.EntryIsNotEnd | clawchat_gateway/clawchat_memory.py:193-198 | no entry line reads as the end marker |
| MemoryTheorems.BodyWriteKeepsMetadata | clawchat_gateway/clawchat_memory.py:245-256 | in a file with a block, writing any body stores it and keeps the metadata |
| MemoryTheorems.BodyWriteWithoutBlock | clawchat_gateway/clawchat_memory.py:245-256 | in a file without block, a body is stored if and only if it has no block itself |
| MemoryTheorems.MetadataWriteKeepsBody | clawchat_gateway/clawchat_memory.py:229-242 | a metadata write stores the metadata, and keeps the body if and only if the text after the block does not begin with two newlines |
| MemoryFile.MemoryStore.WriteBody | clawchat_gateway/clawchat_memory.py:433-464 | replaces or appends as the file function says; a refused or empty append leaves the file alone |
| MemoryFile.MemoryStore.WriteFields | clawchat_gateway/clawchat_memory.py:489-501 | writes the filtered fields, with defaults when the file is new |
| MemoryFile.FilteredKeys | clawchat_gateway/clawchat_memory.py:201-205 | filtering keeps exactly the allowed fields of the target |
| MemoryFile.PreparedExactly | clawchat_gateway/clawchat_memory.py:201-215 | a metadata write keeps the allowed fields in order, and fills a blank behaviour or description if and only if the owner or group file is new |
| MemoryFile.PreparedIsReadable | clawchat_gateway/clawchat_memory.py:32-66 | every allowed field name survives being written as a key |
| MemoryFile.AppendedIsPlain | clawchat_gateway/clawchat_memory.py:385-464 | appending plain content to a plain body gives a plain body |
| MemoryFile.FileRefinesPair | clawchat_gateway/clawchat_memory.py:154-256 | after any plain writes from no file, the file parses to the pair of metadata and body the same writes give |
| MemoryFile.MemoryFileRefinesPair | clawchat_gateway/clawchat_memory.py:433-501 | the same for the repository's marker lines |
| MemoryFile.LastMetadataStays | clawchat_gateway/clawchat_memory.py:433-501 | the pair's metadata is the last one written, whatever bodies came after |
| MemoryFile.AppendTwiceIsAppendOnce | clawchat_gateway/clawchat_memory.py:433-464 | appending the same content to a file again leaves it as it was if and only if the content has a non-blank line |
| InputOwnership.HistoryInputs.EnterScope | clawchat_gateway/adapter.py:3700-3712 | admits unless another task owns a key, and then takes the free keys |
| InputOwnership.HistoryInputs.ExitScope | clawchat_gateway/adapter.py:3713-3722 | drops the acquired keys still owned by it and reports whether there were any |
| InputOwnership.HistoryInputs.HandOff | clawchat_gateway/adapter.py:3674-3680 | drops the keys its caller owns |
| InputOwnership.TwoTasksOnlyAfterHandOff | clawchat_gateway/adapter.py:3674-3747 | two tasks have open admitted scopes on one message only if the earlier handed it off before the later was entered |
| InputOwnership.ClaimIsOwned | clawchat_gateway/adapter.py:3700-3722 | a message admitted to a scope belongs to its task until handed off |
| InputOwnership.NoLeak | clawchat_gateway/adapter.py:3700-3722 | an owned message is held by an open scope of its owner |
| InputOwnership.RefusedExactlyWhenBusy | clawchat_gateway/adapter.py:3700-3709 | a scope is refused if and only if an open scope of another task holds one of its messages |
| InputOwnership.OthersKeepTheirKeys | clawchat_gateway/adapter.py:3713-3722 | nothing one task does, late exits included, releases another task's message |
| ReplyStream.ActiveRun.StreamUpdate | clawchat_gateway/adapter.py:8218-8254 | hands over a created, add or failed frame and is suspended, as the begin function says |
| ReplyStream.ActiveRun.AfterCreated | clawchat_gateway/adapter.py:8238-8252 | once the created frame is out the stream is open and the add is handed over |
| ReplyStream.ActiveRun.AfterAdded | clawchat_gateway/adapter.py:8243-8254 | once the add is out its text is stored |
| ReplyStream.ActiveRun.StreamFail | clawchat_gateway/adapter.py:8256-8269 | hands over the failed frame of an open stream; a closed one never streams again |
| ReplyStream.ActiveRun.AfterFailed | clawchat_gateway/adapter.py:8268-8269 | once the failed frame is out the stream is closed for good |
| ReplyStream.ActiveRun.StreamFinish | clawchat_gateway/adapter.py:8271-8284 | hands over the done frame; the stream stays open meanwhile |
| ReplyStream.ActiveRun.AfterDone | clawchat_gateway/adapter.py:8283-8283 | once the done frame is out the stream is closed |
| ReplyStream.ActiveRun.RetireRun | clawchat_gateway/adapter.py:8286-8291 | fails an open stream first; a closed run leaves the tables at once |
| ReplyStream.ActiveRun.AfterFailedForRetirement | clawchat_gateway/adapter.py:8286-8291 | once the failed frame is out the run is closed and leaves the tables |
| ReplyStream.DeltasGiveText | clawchat_gateway/adapter.py:8242-8254 | in a well-formed trace the deltas of a stream join to its text if and only if it is the run's first |
| StreamOverlap.MayBeginExactlyWhenSafe | clawchat_gateway/adapter.py:8218-8291 | after guarded operations the next may begin if and only if then, in whatever order the suspended ones go on, the trace stays well formed, the stored text ends up the last sent, and a retired run closed |
| StreamOverlap.SafeExactlyWhenGuarded | clawchat_gateway/adapter.py:8218-8331 | over all interleavings a run is safe throughout if and only if every operation began under the guard |
| StreamOverlap.OneAtATimeIsGuarded | clawchat_gateway/adapter.py:8218-8291 | operations that never overlap are guarded |
| StreamOverlap.TraceIsWellFormed | clawchat_gateway/adapter.py:8202-8291 | in every guarded run: created, adds numbered from 0 throughout, one end right after an add with its number, nothing after a failed |
| StreamOverlap.FirstStreamSpellsText | clawchat_gateway/adapter.py:8242-8254 | the first stream's deltas join to the text handed over so far |
| StreamTexts.DoneFramesCarryFinalTexts | clawchat_gateway/adapter.py:8271-8284 | over all events the texts of the done frames, in order, are the final texts of the finishes begun while the stream was open |
| StreamTexts.EveryEditIsSent | clawchat_gateway/adapter.py:8218-8254 | over all events, for each text, adds sent and openings still suspended are as many as the edits to be streamed |
| StreamTexts.OpeningsAndFailuresAreSent | clawchat_gateway/adapter.py:8218-8269 | there are as many created frames as edits that opened a stream, and as many failed ones as failures of an open one |
| StreamOverlap.RetiredIsClosed | clawchat_gateway/adapter.py:8286-8291 | a run retired under the guard is closed and its trace ends in an end frame |
| StreamOverlap.UpdateDuringFinishBreaks | clawchat_gateway/adapter.py:8271-8283 | an edit while the done frame goes out sends an add after it |
| StreamOverlap.RetireDuringOpeningLeaves | clawchat_gateway/adapter.py:8238-8254 | a run retired while its created frame goes out is left unlisted with an open stream |
| StreamOverlap.ReopenedStreamFallsShort | clawchat_gateway/adapter.py:8140-8165 | a run finished but not retired streams again with a delta that misses the beginning |
| StreamedRuns.CourseOk | clawchat_gateway/adapter.py:7791-9301 | over all events of all runs the tables are in order and list exactly the runs that count as listed |
| StreamedRuns.LeavesExactlyWhen | clawchat_gateway/adapter.py:8286-9293 | a listed run leaves the tables if and only if it retires, its chat is dissolved, or a run of the same id starts or retires |
| StreamedRuns.GoneForGood | clawchat_gateway/adapter.py:9284-9293 | a run that left the tables never comes back |
| StreamedRuns.LostExactlyWhen | clawchat_gateway/adapter.py:1647-1655 | a run that left, and on which nothing begins any more, has a stream without an end if and only if it was dropped while open or opening with no end under way |
| StreamedRuns.RetirementIsJoint | clawchat_gateway/adapter.py:8286-8291 | a retirement takes exactly its id out of the tables, leaves them in order, and the stream closed |
| StreamedRuns.DissolvedWhileOpening | clawchat_gateway/adapter.py:1647-1655 | a chat dissolved during the created frame: the stream opens and is never ended |
| RunTables.ActiveRuns.Register | clawchat_gateway/adapter.py:7791-7805 | a new run is its chat's newest |
| RunTables.ActiveRuns.Discard | clawchat_gateway/adapter.py:9284-9293 | exactly that run leaves, and the chat's entry moves to its newest remaining run |
| RunTables.ActiveRuns.EvictChat | clawchat_gateway/adapter.py:1647-1655 | exactly the chat's runs and its entry leave |
| RunTables.FindLatestForChat | clawchat_gateway/adapter.py:9295-9301 | finds the chat's latest started run whenever it has one |
| RunTables.RunsDetermineChats | clawchat_gateway/adapter.py:9284-9301 | the runs alone determine the table of chats |
| RunTables.ResolveFindsNewest | clawchat_gateway/adapter.py:9268-9282 | without an id, a chat's newest active run is found, if and only if it has one |
| RecencyCache.AnswersLikeLog | clawchat_gateway/adapter.py:8445-8453 | while the keys that count fit the bound at every mark, the bounded dictionary answers like the whole log |
| RecencyCache.WrongWhenOverBound | clawchat_gateway/adapter.py:8445-8453 | with more keys than the bound some answer is wrong |
| RecentEmits.EmitWindow.RecordEmit | clawchat_gateway/adapter.py:8445-8453 | moves the pair to the end and drops the oldest beyond 256 |
| RecentEmits.DuplicateIsSentRecently | clawchat_gateway/adapter.py:8424-8453 | with at most 256 pairs in each window, a send is a duplicate if and only if the same stripped text went to the chat within 5 s |
| RecentEmits.KeyExactly | clawchat_gateway/adapter.py:8424-8428 | the pair looked up is a nonempty chat and the nonempty text with exactly the blanks around it taken off |
| RecentEmits.DuplicateExactlyWhen | clawchat_gateway/adapter.py:8436-8443 | the duplicate law with chat, text and window spelled out |
| RecentEmits.CrowdedMissesDuplicate | clawchat_gateway/adapter.py:8424-8453 | with more pairs in the window some duplicate goes unnoticed |
| ServerRejections.RejectionGate.MarkRejected | clawchat_gateway/adapter.py:1559-1574 | a conversation gets a new deadline at the end, the oldest beyond 512 leave |
| ServerRejections.RejectionGate.ClearRejection | clawchat_gateway/adapter.py:1581-1586 | the conversation leaves the map |
| ServerRejections.RejectionGate.IsRejected | clawchat_gateway/adapter.py:1588-1610 | answers by deadline and owner, and drops an expired entry |
| ServerRejections.GatedIsRejectedRecently | clawchat_gateway/adapter.py:1546-1610 | with at most 512 conversations under rejection at a time, a send is gated if and only if its chat was rejected within 600 s, not seen alive since, and is not the owner's |
| ServerRejections.CrowdedLetsOneThrough | clawchat_gateway/adapter.py:1546-1610 | with more of them one is not gated |
| ServerRejections.StaysInDeadlineOrder | clawchat_gateway/adapter.py:1559-1574 | the map is sorted by deadline, without repetition, and never above 512 |
| GroupSettings.GroupSettingsCache.ApplyFetched | clawchat_gateway/group_settings.py:106-141 | drops a late pull, else replaces the rows by the rebuilt snapshot |
| GroupSettings.RebuiltHasWinners | clawchat_gateway/group_settings.py:132-139 | a conversation has a row if and only if the snapshot mentions it: the last one of its highest version |
| GroupSettings.CacheIsNewest | clawchat_gateway/group_settings.py:106-141 | in any order of arrival the cache is the snapshot with the greatest sequence |
| GroupSettings.OrderDoesNotMatter | clawchat_gateway/group_settings.py:106-141 | the same pulls in two orders leave the same cache |
| SettingsGate.GroupSettingsGate.ConfigChanged | clawchat_gateway/adapter.py:1782-1791 | closes the gate and starts the next generation in one step |
| SettingsGate.GroupSettingsGate.ReleaseIfLatest | clawchat_gateway/adapter.py:2385-2403 | opens the gate for the latest generation only |
| SettingsGate.GroupSettingsGate.RefreshEnds | clawchat_gateway/adapter.py:2405-2454 | only an authoritative answer reaches the cache; any end may release |
| SettingsGate.CacheAgreesWithNewestAnswer | clawchat_gateway/adapter.py:2330-2454 | in every run the cache is the snapshot of the latest generation answered so far |
| SettingsGate.OnlyLatestOpens | clawchat_gateway/adapter.py:2385-2403 | a closed gate opens if and only if the latest generation ends or a waiter on it times out; stale ones never open it |
| SettingsGate.SignalKeepsGateShut | clawchat_gateway/adapter.py:1782-1791 | after a signal, until a newer pull, the gate is open if and only if the signal's pull ended or a waiter on its generation timed out |
| SettingsGate.ReconnectGap | clawchat_gateway/adapter.py:1691-1706 | after the reconnect path the gate is open if and only if in its gap the previous generation was released |
| SettingsGate.QuietGapStaysShut | clawchat_gateway/adapter.py:1691-1706 | with nothing of that generation in flight or waiting, the gap is harmless |
| SettingsGate.ReconnectCanOpenEarly | clawchat_gateway/adapter.py:1691-1706 | a run in which the gate is open while the new pull is under way |
| TokenRefresh.TryOnce | clawchat_gateway/api_client.py:1615-1651 | one turn of the loop: how it ends, or when the next attempt starts |
| TokenRefresh.AuthRefreshWithRetry | clawchat_gateway/api_client.py:1578-1651 | the loop makes the attempts at the specified times and ends as the last reply demands |
| TokenRefresh.BackoffIsPositive | clawchat_gateway/api_client.py:1569-1575 | the backoff stays within a quarter of min(30 s, 2^(n-1) s) and is at least 750 ms |
| TokenRefresh.BackoffDoubles | clawchat_gateway/api_client.py:1569-1575 | the backoff starts at one second and doubles up to 30 s |
| TokenRefresh.HeldBackExactlyWhen | clawchat_gateway/api_client.py:1556-1566 | with less than a second lost otherwise, the next attempt is 31 s or more away if and only if the failed one reached the server and was not answered with code 1 |
| TokenRefresh.UnknownIsSpaced | clawchat_gateway/api_client.py:1635-1640 | the attempt after one of unknown outcome starts 31 s or more after it began |
| TokenRefresh.UnknownsSpreadOut | clawchat_gateway/api_client.py:1578-1651 | two attempts lie at least 31 s apart for each unknown one from the first on |
| TokenRefresh.WindowHoldsThreeUnknowns | clawchat_gateway/api_client.py:85-93 | attempts within less than 93 s include at most three of unknown outcome |
| TokenRefresh.ReplaySchedule | clawchat_gateway/api_client.py:85-93 | with every outcome unknown and prompt, replay k of the first four starts 31k to 35k seconds in |
| TokenRefresh.TwoReplaysInGraceWindow | clawchat_gateway/api_client.py:85-93 | the first two replays start at 31-35 s and 62-70 s, the third at 93 s or later |
| TokenRefresh.OnlyTransientIsRetried | clawchat_gateway/api_client.py:1536-1553 | only transient failures are tried again, and at most as often as allowed |
| TokenRefresh.AttemptedExactlyWhen | clawchat_gateway/api_client.py:1536-1651 | an attempt is made if and only if all before failed with another error than code 10003, or 400 with status 200 or none, the caller agreed, and retries are left |
| CatchUpLines.KeepNewest | clawchat_gateway/adapter.py:4668-4680 | the loop keeps the most newest lines that fit the budget, or the cut newest line |
| CatchUpLines.KeptIsUnique | clawchat_gateway/adapter.py:4668-4680 | lines and budget determine what is kept |
| CatchUpLines.KeptFitsBudget | clawchat_gateway/adapter.py:4668-4680 | what is kept fits the budget, and a cut line fills it exactly, for budgets of one or more |
| DeliveredIds.RememberTwice | clawchat_gateway/adapter.py:4545-4553 | trimming after each call or once at the end leaves the same memory |
| DeliveredIds.RememberedExactlyWhenLate | clawchat_gateway/adapter.py:4545-4553 | an id is remembered if and only if at most 500 different ids were given from its last time on |
| CatchUp.GroupHistory.RememberDelivered | clawchat_gateway/adapter.py:4545-4553 | moves the ids to the end and drops the oldest beyond 500 |
| CatchUp.GroupHistory.BuildSeed | clawchat_gateway/adapter.py:4609-4635 | shows the newest rows that fit and records all rows, commands included |
| CatchUp.GroupHistory.BuildUnseen | clawchat_gateway/adapter.py:4637-4685 | shows what fits of the unseen rows; shown and left out together are the unseen ones |
| CatchUp.GroupHistory.ContextForTurn | clawchat_gateway/adapter.py:4509-4543 | a first turn is seeded, a mention catches up, and every turn records its own ids |
| CatchUp.EntersExactlyOnce | clawchat_gateway/adapter.py:4509-4685 | over any turns, a mention shows or counts an offered message if and only if it was not recorded with at most 500 different ids since |
| CatchUp.NotShownTwice | clawchat_gateway/adapter.py:4637-4685 | a message enters two catch-ups only with more than 500 different ids recorded from the first on |
| CatchUpRows.SeedIsNewest | clawchat_gateway/adapter.py:4609-4617 | a seed is made of the newest rows that are neither commands nor of the batch, oldest first, as many as the limit or all |
| CatchUpRows.CatchUpInOrder | clawchat_gateway/adapter.py:4637-4668 | a catch-up is made, in stored order, of exactly the rows of others that are no commands, not of the batch and not recorded |
| CatchUpRows.RecordedExactly | clawchat_gateway/adapter.py:4509-4543 | a turn records its batch, a first turn all rows too, a mention all rows of others not recorded before |
| CatchUpRows.SeedRecordsInOrder | clawchat_gateway/adapter.py:4609-4635 | a first turn records its rows in order and then the batch |
| CatchUpRows.CatchUpRecordsInOrder | clawchat_gateway/adapter.py:4637-4668 | a mention records the commands, then the other rows, each in order, and then the batch |

## Left out

- The host program's hooks, HTTP, WebSocket, SQLite, file locks and atomic replacement: calls into code that is not visible.
- The text a coalesced turn shows (`format_coalesced_group_text`), prompts and language tables: layout without invariants.
- The speaker names of nested batches: the merge only copies them.
- The coalescer after `cancel`, what other tasks do while `cancel` waits for the cancelled ones, a `flush_now` cancelled halfway, and a timeout callback that raises.
- When exactly a timer's sleep starts: it is counted from the creation of its task.
- Redaction of credentials and of URL authorities by regular expressions; only the path segment loop is modelled.
- The query plan of the ledger, search with its excerpts, JSON escaping of the cursor, local time zones, fractions finer than a microsecond and the digits of numbers beyond 2^53.
- The C library's conversion of a time to a date is modelled as counting days from the epoch.
- Lines end at newlines only; Python's `splitlines` also splits at a few rarer characters.
- MemoryFile.FileRefinesPair: bodies with a start marker line or a leading newline are not covered; the exact effect on those is stated for single writes by `MemoryTheorems`.
- `edit_clawchat_memory_body`, search and deletion of memory files, and the checks of their paths.
- Sends of stream frames that raise, and operations cancelled at a send; frames go out in the order they are handed over.
- Which texts a stream holds back and which chats may stream: both are free choices of each update.
- The set of completed run ids, the per-chat counts of visible sends and the set of dissolved chats: bounded dictionaries like the ones modelled.
- The five seconds after which a waiter of the settings gate times out: it may time out at any moment.
- Retrying the activation call (`agents_connect_with_retry`): a bounded loop without timing rules between attempts.
- How a history line is written, who counts as a speaker, and what is a command: a row carries its line and a flag.
- The legacy context for groups with a session per speaker.
