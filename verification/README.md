# Angl in Dafny

Angl is a process supervisor: a daemon keeps child processes running, publishes its inventory to
listeners, and follows their log files; a command line selects processes by label and shows their
logs. This project models the parts of it that hold state and races, and proves what they keep.
`dafny verify dfyconfig.toml` checks everything.

| file | what it models |
|---|---|
| `Supervisor.dfy`, `SupervisorProofs.dfy`, `SupervisorLife.dfy` | one angl: the fields under the mutex as a class, each run loop as a program counter indexed by generation, every interleaving of callers, loops, children, timers and cancellations, and whole lives of a loop |
| `Inventory.dfy`, `Replication.dfy`, `ReplicationProofs.dfy`, `ReplicationRuns.dfy` | the versioned inventory: the diff, the publisher with its capacity-one channels, the wire, and the client that applies updates, as a step system |
| `Lines.dfy`, `Disk.dfy`, `History.dfy`, `CappedHistory.dfy`, `Delivery.dfy`, `Tail.dfy`, `Stream.dfy` | the log tailer: line parser and ring, a filesystem anyone may change between two system calls, the reverse scan for the last lines, the record of what was delivered, the file follower, and the merge of several sources |
| `Selector.dfy`, `SelectorProofs.dfy`, `SelectorMeaning.dfy`, `Catalog.dfy`, `Observe.dfy` | the selector language and what it means, saved views, and the choice of what to observe |
| `Framing.dfy`, `LineFormat.dfy` | the framing of a followed stream into records, and how lines look byte for byte |
| `Reconcile.dfy` | the daemon's configuration and process registry |
| `ListenModel.dfy`, `ListenKeys.dfy` | the interactive listener: cursor, marks, keys, updates, ticks |
| `Ordering.dfy`, `Options.dfy`, `Numbers.dfy` | string order and sorting; a value that may be absent; the smaller and the larger number |

Code that changes fields in the original is a class here, proved against functions of the old
state; the theorems are about those functions and about every reachable state of the step systems.
What such a function computes is then characterised without it: by the outcome of whole runs, by the
text or the bytes that go in and come out, or field by field.

Conventions of the model:

- A run is a schedule of enabled steps from the initial state. `Reachable` means some schedule leads
  there, so a lemma that requires only `Reachable` speaks of all runs.
- `Disk.Env` stands for the operating system. Before every system call anybody may change the disk
  in any way. Its ghost flag `calm` stays true while all such changes were appends, one-way renames
  and creations; the delivery theorems hold while it is true, as it is for the logs angl writes and
  rotates itself (daemon/process.go:421-428). `faults` counts the system calls that failed and the
  cancellations that were noticed.
- Whether a launch, a save or a write succeeds, how long a child runs, in which order a map is
  walked and in which order sources answer are arbitrary: parameters, or nondeterministic choices.
- Inventories come sorted by name with one item a name, as the daemon lists them
  (daemon/daemon.go:92-102); a listener's registration arrives once, before every update
  (listen.go:118-182).
- Two inventories are the same when they agree up to the three elapsed strings, which every reader
  derives for itself.

## What the code does not guarantee

Each of these has a witness and the exact condition under which it happens.

- A cancelled run loop may launch once more (`SupervisorProofs.LaunchAfterCancel`), never twice
  (`SupervisorProofs.CancelledLoopEnds`): exactly if it is past the last look at the context and
  before the launch that follows it (`SupervisorProofs.LaunchAfterCancelExactly`).
- `Enable` and `Disable` keep their change in memory when saving fails. Memory and processes then
  agree exactly if the angl already was enabled or disabled, and a later reload of a file that says
  the same takes the process for unchanged (`Reconcile.FailedEnableIsKeptByReload`).
- A selector of blanks selects everything alone, but is an error beside a saved view
  (`Observe.BlankSelectorBesideAView`): the code asks whether a text is empty, the parser whether it
  is blank (`Observe.CombinedMeansBoth` has the exact condition).
- The comment at logstream/logstream.go:46-47 promises a line budget for each round. It is a budget
  for each read. A poll that stays with its file keeps it; one that leaves a file for the next may
  deliver up to twice as many lines, and exceeds the budget exactly if the newlines left in the old
  file, its partial last line and the newlines read from the next file are more than it together
  (`Tail.SourceState.Poll` states this of its lines, by `Delivery.SwitchExceedsExactly`; `Tail.OverBudgetState` is a state before
  such a poll).
- A byte cap on history may cut into a line (`CappedHistory.CapCutsALine`). The lines are the last
  lines of the file exactly if the history starts at a line, or inside one that is nothing but a
  carriage return (`CappedHistory.HistoryIsLastLinesExactly`, for a line the parser does not clip);
  all but the first always are.

The registration's snapshot does not prune the listener's change marks. That never shows, since the
registration comes once and before any change; `ListenModel.Listener.ApplySnapshot` says what the
call by itself leaves.

## Model

| member | source | states |
|---|---|---|
| `SupervisorProofs.AtMostOneChild` | daemon/process.go:90-135 | In every reachable state of any mix of Start, Exec, Stop, StopRunning, exits, timers and cancellations, at most one run loop owns a live child, it is the newest, and the state says so |
| `SupervisorProofs.SupersededLoopIsInert` | daemon/process.go:213-231 | Whatever a loop of an older generation still does, it changes no field of the newer one and launches nothing, also after it published Failed |
| `SupervisorProofs.RestingState` | daemon/process.go:213-231 | Stopped or Disabled is shown only with no pid, nothing to cancel, wait for or wake, and no loop that can still launch, and which of the two follows the definition |
| `SupervisorProofs.BackoffSchedule` | daemon/process.go:233-287 | At the head of every iteration the backoff is min(60s, 2s times 2 to the failure count), and the wait after failure k lasts min(60s, 2^k s), for heartbeats and after healthy resets too |
| `Supervisor.NextBackoffCouples` | daemon/process.go:443-449 | Doubling up to the maximum is one step of that closed form |
| `SupervisorProofs.RestartLimit` | daemon/process.go:268-345 | With a positive limit the count never passes it, Failed means it was met exactly, and a persistent angl without a healthy run makes at most that many attempts per start and is then over |
| `SupervisorProofs.FailedNeedsLimit` | daemon/process.go:274-345 | An unlimited angl never fails |
| `SupervisorLife.BriefRunsReachLimit` | daemon/process.go:327-345 | In every schedule in which no child lives longer than 120 seconds, no start makes more attempts than the limit; with all of them made and counted the loop is over, and the newest has failed unless it was cancelled |
| `SupervisorLife.ExitCounted` | daemon/process.go:327-354 | An exit after more than 120 seconds counts as the first failure, with a wait of 2 seconds; any other as one failure more, with a wait of min(60, 2^n) seconds or, at the limit, the state Failed |
| `SupervisorLife.LaunchFailureCounted` | daemon/process.go:262-288 | A failed launch counts as one failure more in the same way, with no child |
| `SupervisorLife.LifeOf` | daemon/process.go:235-356 | For any lengths of runs of a persistent angl left alone: after n runs the failure count is the number of runs since the last healthy one, it has failed exactly if that is the limit, and otherwise waits as long as the count says and launches again |
| `SupervisorLife.FirstLife` | daemon/process.go:90-356 | That life is a run of the whole system, from its start on |
| `SupervisorLife.HeartbeatWaits` | daemon/process.go:314-325 | The exit of a heartbeat is never a failure, however long it ran; it waits for its interval |
| `SupervisorLife.WaitEnds` | daemon/process.go:380-402 | A wait that is over leads back to the launch with the backoff doubled after a failure, up to a minute |
| `SupervisorLife.LaunchRuns` | daemon/process.go:244-297 | A launch that succeeds shows the state running and the pid of its child |
| `SupervisorLife.EndsOnlyByFailing` | daemon/process.go:213-356 | The loop of an angl that nobody stopped is over only if it failed; a wait that is not for a failure lasts the interval |
| `SupervisorLife.FailedStays` | daemon/process.go:213-231 | A failed angl stays failed, through every run, until it is started or forced |
| `SupervisorProofs.CancelledLoopEnds` | daemon/process.go:235-402 | After cancellation a loop attempts at most one further launch and takes at most 28 further steps, after which it is closed, however timer, wake, exit and cancel race |
| `SupervisorProofs.LaunchAfterCancel` | daemon/process.go:235-262 | A reachable state in which a cancelled loop has launched a child: the stronger claim of no launch after cancellation is false |
| `SupervisorProofs.LaunchAfterCancelExactly` | daemon/process.go:235-402 | A loop whose context is cancelled attempts another launch in some continuation exactly if it is at the head, between the head and the launch, or leaving a wait that found the context not yet cancelled |
| `SupervisorProofs.CancelledLoopCanMove` | daemon/process.go:235-402 | A cancelled loop that has not ended always has a next step, at worst its child's exit, so it cannot be stuck |
| `SupervisorProofs.StopIsFinal` | daemon/process.go:137-169 | When Stop or StopRunning has returned, no generation that existed when it took the lock has a child or ever launches again, in any continuation |
| `SupervisorLife.StopEndsAll` | daemon/process.go:137-169 | From the call of Stop, always possible, or of StopRunning, possible exactly while running, to its return and beyond: no loop that existed at the call has a child after the return, or launches ever again |
| `SupervisorLife.StopWaitsForCancelled` | daemon/process.go:162-169 | The loop a Stop waits for is cancelled, in every reachable state |
| `SupervisorLife.StopCanReturn` | daemon/process.go:162-169 | A Stop that waits can always return after at most 28 steps of the loop it waits for, and only that loop needs to move |
| `SupervisorProofs.PastForAllRuns` | daemon/process.go:213-231 | A loop past its last launch stays past it, with no child and no further attempt, through every run |
| `SupervisorProofs.ChannelDiscipline` | daemon/process.go:102-118 | A non-nil wake is the open channel of the wait in progress and implies Backoff; every wake is closed at most once, every done exactly once, by its own loop at its end |
| `SupervisorProofs.ExecOutcome` | daemon/process.go:102-122 | Exec is refused exactly when starting or running, or in a backoff whose channel is gone; otherwise it starts a generation, or closes the current wait's channel and no other |
| `SupervisorLife.StartOutcome` | daemon/process.go:90-135 | Start does nothing to a busy angl and gives any other, failed ones included, a new loop about to launch, with a failure count of zero and a backoff of 2 seconds |
| `SupervisorLife.ExecRuns` | daemon/process.go:102-122 | Exec starts any angl that is not busy, lets a waiting one launch at once, and changes nothing otherwise |
| `SupervisorProofs.WaitsAreFresh` | daemon/process.go:370-376 | Every wait begins on an open channel that no earlier wait had |
| `SupervisorProofs.ForcedExecDoesNotLeak` | daemon/process.go:370-402 | Without a new exec, no wait on a channel made later is ever woken: a forced exec completes only the wait it was issued for |
| `SupervisorProofs.NextKeepsInv` | daemon/process.go:90-402 | Every step of every participant keeps the invariant tying the guarded fields to the newest loop and older loops to their end |
| `Supervisor.Process.Start` | daemon/process.go:90-98 | The method's effect on all guarded fields is the step the interleaving model takes |
| `Supervisor.Process.Exec` | daemon/process.go:102-122 | The same, with its three outcomes |
| `Supervisor.Process.RecordFailure` | daemon/process.go:268-280 | The shared failure accounting: one more failure, then Failed at the limit or a new wait |
| `Supervisor.Process.Deferred` | daemon/process.go:214-231 | The deferred section acts only for its own generation and keeps Failed |
| `Inventory.DiffApplies` | daemon/listen.go:209-232 | Applying the difference to any map that equals the old inventory up to elapsed fields gives one that equals the new inventory up to elapsed fields |
| `Inventory.DiffMinimal` | daemon/listen.go:209-232 | Upserts and removals are disjoint, and every patch that does the same work contains them |
| `Inventory.DiffEmptyIffSame` | daemon/listen.go:188-232 | For name-sorted inventories the difference is empty exactly when the publisher's comparison calls them equal |
| `Inventory.InventoryEqual` | daemon/listen.go:188-207 | True exactly for inventories equal item by item up to elapsed fields |
| `Inventory.DiffInventory` | daemon/listen.go:209-232 | The loops compute the specified difference, for every order of walking the maps |
| `Replication.InventoryStream.RefreshInventory` | daemon/listen.go:124-161 | Nothing changes for an equal inventory; otherwise the version grows by one and every listener holds the update, or a full snapshot if its channel was not empty |
| `Replication.InventoryStream.PublishUpdate` | daemon/listen.go:143-159 | The loop over listeners leaves every channel full with one of the two, in any order |
| `Replication.InventoryStream.Subscribe` | daemon/listen.go:169-180 | A new listener gets a new id, an empty channel and the snapshot of the current version |
| `ReplicationProofs.EveryListenerConverges` | daemon/listen.go:124-180 | In every reachable state of refreshes, subscriptions, receives, deliveries and ticks, applying wire then channel never meets a version gap and ends exactly at the daemon's version and inventory, dropped patches notwithstanding and whichever encoding was chosen |
| `ReplicationProofs.CaughtUpClientIsCurrent` | listen.go:516-602 | A subscribed client with nothing left to apply shows the daemon's inventory |
| `ReplicationRuns.ListenersShowLatest` | daemon/listen.go:124-180 | A caught-up listener shows exactly the items the daemon last listed, each with everything recorded of it |
| `ReplicationRuns.RefreshTakesOver` | daemon/listen.go:124-143 | A refresh takes over the new inventory; the version grows by one, and every listener is about to be told, exactly if it differs from the old one |
| `ReplicationRuns.UndisturbedRefresh` | daemon/listen.go:124-161 | Taken without interference, the steps of a refresh leave exactly what the method of the publisher leaves: version, items and every channel |
| `ReplicationRuns.SubscriberConverges` | daemon/listen.go:163-186 | From its subscription until it leaves, through any run, a listener stays subscribed and is owed what ends at the daemon's version and inventory |
| `ReplicationRuns.SubscribeBegins` | daemon/listen.go:163-180 | A subscription brings a new id, an empty channel, and the snapshot of the moment as first message |
| `ReplicationRuns.UnsubscribeLeaves` | daemon/listen.go:182-186 | Leaving removes the channel and nothing else |
| `ReplicationRuns.LeftStaysQuiet` | daemon/listen.go:182-186 | A listener that left is sent nothing any more, through every run |
| `ReplicationRuns.CanCatchUp` | listen.go:164-182 | A listener can always catch up by receiving and applying alone, and then shows the daemon's inventory |
| `ReplicationRuns.RefusedExactly` | listen.go:554-602 | A client refuses exactly the malformed updates and the patches for another version |
| `ReplicationRuns.GapIsNoticed` | listen.go:568-574 | A client that missed a patch refuses the next one, naming both versions |
| `ReplicationRuns.RefusalEndsConnection` | listen.go:281-289 | After the first refused message the client stays as it was, and applies nothing more |
| `ReplicationRuns.EncodingsApply` | daemon/listen.go:234-241 | Of the two encodings the snapshot can be applied by every client, the patch exactly by one at the version before |
| `ReplicationRuns.TickShows` | listen.go:490-514 | A tick of the step system brings the new elapsed fields and leaves everything else |
| `ReplicationRuns.SameItem` | daemon/listen.go:200-207 | Two items are the same to the publisher exactly if name and every recorded field agree |
| `ReplicationProofs.ReplacementNeverBlocks` | daemon/listen.go:147-157 | The replacement send always finds the channel empty, whatever receivers did since the first try, so it never blocks under the lock |
| `ReplicationProofs.RefreshCanProceed` | daemon/listen.go:143-159 | A refresh holding the lock always has an enabled step of its own |
| `ReplicationProofs.UndisturbedSteps` | daemon/listen.go:143-159 | The steps for one listener, taken together, do what one round of the publisher's loop does |
| `ReplicationProofs.NextKeepsInv` | daemon/listen.go:124-186 | Every step keeps every connection's backlog applicable and owed the right version |
| `ReplicationProofs.ApplyStable` | listen.go:554-602 | Clients that agree up to elapsed fields react alike to every message, errors included |
| `ReplicationProofs.TickStable` | listen.go:490-514 | A tick changes nothing but elapsed fields |
| `Lines.FeedSplits` | logstream/parser.go:23-61 | However data splits at newlines, the parser emits exactly those lines, clipped to the maximum, without a final CR of the clipped text, marked truncated exactly if longer, and keeps the clipped rest |
| `Lines.AllLinesSplits` | logstream/parser.go:46-61 | With a flush, the unterminated rest is one more line exactly if it is not empty |
| `Lines.SplitExists` | logstream/parser.go:23-44 | Every byte sequence splits at its newlines |
| `Lines.SplitUnique` | logstream/parser.go:23-44 | It does so in one way only, so the format is unambiguous |
| `Lines.FeedAppend` | logstream/parser.go:23-44 | Parsing in pieces is parsing the whole, lines and state alike |
| `LineFormat.ContentsDelivered` | logstream/parser.go:23-61 | However data splits at newlines, line i is the first `max` bytes of content i without a final carriage return of these, truncated exactly if there are more bytes, and so for an unterminated rest |
| `LineFormat.CrlfLine` | logstream/parser.go:54-61 | A line that ends in CR LF, bytes 13 and 10, is delivered without either |
| `Lines.LineParser.Consume` | logstream/parser.go:23-44 | Stops just after the newline that fills the line budget and otherwise at the end of the data, having parsed exactly what it consumed |
| `Lines.LineParser.Flush` | logstream/parser.go:46-53 | Emits the pending line exactly if one was begun |
| `Lines.LineRing.Add` | logstream/parser.go:73-81 | After any sequence of additions the ring still holds the last ones in rotated order |
| `Lines.LineRing.Contents` | logstream/parser.go:83-91 | Exactly the last `capacity` lines ever added, in order |
| `History.NormalisedIsUsable` | logstream/logstream.go:99-127 | Options that pass validation get positive sizes, and normalising again changes nothing |
| `History.HistoryIsWholeTail` | logstream/source.go:270-354 | Without a cap, parsing from the start the scan finds yields exactly the last min(n, total) lines of parsing the whole file, trailing newline or not |
| `History.HistoryUnderCap` | logstream/source.go:309-354 | With a cap the suffix is at most that long and holds at most n lines: the file's own last lines if it starts at a line, and all but the first wherever it starts |
| `CappedHistory.HistoryIsLastLinesExactly` | logstream/source.go:309-354 | The lines of a history are the file's last lines exactly if it starts at a line or inside one that is nothing but a carriage return, for a line that is not clipped |
| `CappedHistory.SuffixIsLastLines` | logstream/source.go:270-354 | Wherever a suffix starts and whatever the clipping, its lines are the file's last lines exactly if the rest of the cut line is delivered as the whole line would be |
| `CappedHistory.CapCutsALine` | logstream/source.go:324-351 | A cap does cut: two bytes of history of the one line "ab" deliver "b" |
| `History.FirstLine` | logstream/parser.go:23-61 | Parsing from any position yields the rest of its line and then the lines after it |
| `History.LineBoundary` | logstream/parser.go:23-44 | Parsing may start afresh after any newline |
| `History.ScanBufFinds` | logstream/source.go:335-348 | Scanning one block finds the start, if it lies in the block, and otherwise leaves counters that are right for everything scanned so far |
| `History.ReverseTailStart` | logstream/source.go:309-354 | The block scan, with its capped last block, returns the specified start while others only append; it fails only if a call failed |
| `History.SnapshotFile` | logstream/source.go:270-307 | Scan, forward parse with short reads, flush and ring together return the specified history of the measured size; at most n lines in any case |
| `Tail.SourceState.ReadAvailable` | logstream/source.go:211-242 | Keeps position equal to offset, stays within both budgets, parses exactly the bytes consumed whatever the read sizes, and stops only with a budget spent, an error, or everything read that was there at the start |
| `Tail.SourceState.ConsumeChunk` | logstream/source.go:219-230 | Bytes past the line budget are given back: the handle is rewound to the offset |
| `Tail.SourceState.PollReplaced` | logstream/source.go:98-122 | Leaves the replaced file only at the second poll, since the file last had more to read, that found it replaced and drained it to the size it measured, and then returns the drained lines, the flushed partial line and the next file's lines from its start, in this order; stays, within the line budget, only if behind, at the budget or at the first such poll, which has read up to the size it measured too |
| `Tail.SourceState.PollSame` | logstream/source.go:84-132 | Delivers the next lines of the same file, or starts over and parses it afresh if it was cut or rewritten; while others only append it never starts over |
| `Tail.SourceState.CheckSame` | logstream/source.go:84-130 | Reading starts over exactly if the file is shorter than what was read of it or no longer begins with its first 64 bytes; otherwise offset and parser stay |
| `Tail.SourceState.PollMissing` | logstream/source.go:70-78 | With nothing at the path the open file is read on all the same: up to a budget or all that was in it; the error is that of the path unless a read failed |
| `Tail.SourceState.OpenPath` | logstream/source.go:135-181 | An open that asks for history delivers the last lines and follows from the measured size, any other delivers the file from its start; at least its first 64 bytes, or all it had, are remembered; the record of what was delivered stays exact on errors too |
| `Tail.SourceState.Poll` | logstream/source.go:64-133 | Extends what was delivered by the lines it returns: the tail or one budget at the first open, one budget while it stays with a file, at most two when it leaves one, more than one exactly if the lines ended in the old file and those read from the next, which is read from its start, are more; reports an error only if a call failed; without one, or with nothing at the path, makes progress up to a budget, and leaves a retired, fully read file at the second such poll, the first having read all that was in it when that poll began |
| `Delivery.SwitchExceedsExactly` | logstream/source.go:100-121 | The lines of a poll that leaves a file exceed any budget exactly if the newlines drained, the partial last line and the newlines of the next file do |
| `Tail.OverBudgetState` | logstream/source.go:98-121 | A tailer state on a rotated disk, meeting what a replaced-file poll requires, whose next switch to a fully read file returns two lines under a budget of one |
| `Delivery.DeliverClose` | logstream/source.go:115-121 | Closing a file that left the path and was not followed before completes the record: all lines of what was read, the partial one last, after those of the files before, each of them once |
| `Delivery.NothingLost` | logstream/source.go:98-121 | If the writer had stopped before the poll that closed the file measured it, every byte from the start of following was delivered as parsed lines |
| `Delivery.DeliveredEvolves` | logstream/source.go:64-133 | Appends, renames and creations by others never invalidate what was delivered |
| `Tail.RunSource` | logstream/source.go:32-62 | Each answer carries the lines of its poll, and its poll's error unless the poll before failed in the same way; together they carry exactly the lines delivered; the first file is opened as the first request asks, if the first poll opens it, and only it may start with a tail |
| `Tail.Follow` | logstream/source.go:32-133 | Over any sequence of polls on a path that others only append to, rename and create, all lines delivered are the initial tail, the parse of what the first file had after it, and the parse of every later file from its start, file after file; only the first file has a tail, every closed file has left the path, no file is followed twice, and the open one is none of those closed, so nothing is delivered twice |
| `Stream.ArrivalOrderIrrelevant` | logstream/logstream.go:191-202 | The answers of a round end up in the same order whatever order they arrived in |
| `Stream.Order` | logstream/logstream.go:191-202 | The array filled from the channel holds every source's own answer |
| `Stream.RoundSequences` | logstream/logstream.go:206-223 | A round numbers its lines without gap, errors in between notwithstanding |
| `Stream.RunSequences` | logstream/logstream.go:179-241 | Over a whole run the line numbers are exactly 1, 2, 3, ... |
| `Stream.Stream` | logstream/logstream.go:169-242 | The run emits round after round in source order; cancelled after k events, it has emitted exactly the first k |
| `Stream.RunTellsAnswers` | logstream/logstream.go:179-242 | Whatever the interleaving, the events of one source are its own answers in order, the error of an answer before its lines; the lines among them are those its tailer delivered; a cancelled run passes on a prefix |
| `Stream.RoundInSourceOrder` | logstream/logstream.go:206-223 | The events of a round come source after source |
| `Stream.ReadLast` | logstream/logstream.go:244-282 | All lines by source, numbered from 1, or the error of the first failing source in configuration order; the context's error exactly if it is cancelled before all answers are in |
| `Selector.ParseSelector` | catalog/selector.go:35-76 | The loop returns the requirements of all parts in order, or the error of the first bad part |
| `Selector.Matches` | catalog/selector.go:78-103 | True exactly if every requirement holds of the labels |
| `Selector.CanonicalString` | catalog/selector.go:107-123 | Computes the sorted, joined terms the round trips are about |
| `SelectorProofs.ParsedTermWellFormed` | catalog/selector.go:48-72 | Everything the parser returns has a valid key and value, and the value of an `=` never contains `!=` |
| `SelectorProofs.TermRoundTrip` | catalog/selector.go:48-119 | A printed requirement parses back to itself, and neither commas nor spaces of the list can break it |
| `SelectorProofs.StringRoundTrip` | catalog/selector.go:35-123 | Printing and parsing yields the requirements sorted by printed term, each requirement as often as before; it matches the same labels and prints the same string |
| `SelectorProofs.ParsedRoundTrip` | catalog/selector.go:35-123 | So it is for every text the parser accepts |
| `SelectorProofs.CombinedParse` | catalog/selector.go:35-76 | Two texts joined by a comma parse exactly when both parse and neither is blank, and then to both lists |
| `SelectorProofs.SplitJoin` | catalog/selector.go:40-122 | Joining comma-free parts and splitting gives the parts back |
| `SelectorMeaning.CanonicalExactly` | catalog/selector.go:105-123 | Two selectors print the same text exactly if they have the same requirements, each as often, in whatever order |
| `SelectorMeaning.ParsesExactly` | catalog/selector.go:35-76 | The language: a text is a selector of these requirements exactly if it is all spaces and there are none, or its parts between commas spell them one by one, `key=value`, `key!=value`, `key` or `!key`, with any spaces around key, sign and value |
| `SelectorMeaning.SelectorAsks` | catalog/selector.go:78-103 | A selector matches exactly the labels that have each asked key with the asked value, with another value or not at all, at all, or not |
| `SelectorMeaning.TermErrors` | catalog/selector.go:42-72 | Which of the four errors a refused term has |
| `SelectorMeaning.TextErrors` | catalog/selector.go:40-72 | The error of a refused text is that of its first bad part |
| `SelectorMeaning.KeyAlphabet` | catalog/catalog.go:37 | Exactly which keys are valid, by character codes |
| `SelectorMeaning.NameAlphabet` | catalog/catalog.go:36 | Names of views are keys without a slash |
| `SelectorMeaning.SpaceAlphabet` | catalog/selector.go:36-41 | Exactly which characters are trimmed, by character codes |
| `SelectorMeaning.ValueAlphabet` | catalog/catalog.go:117-135 | Exactly which values are valid |
| `Catalog.ResolvedMembers` | catalog/catalog.go:201-216 | An item is in a result exactly if it is in the inventory and its fields, live ones overriding labels, match |
| `Catalog.ResolvedCounts` | catalog/catalog.go:201-216 | A matching item is in a result as often as in the inventory, any other not at all |
| `Catalog.Resolve` | catalog/catalog.go:201-216 | The result is the matching items, each as often as in the inventory, ordered by name |
| `Ordering.LeExactly` | catalog/catalog.go:214 | The order of names and terms compares code points: a prefix first, otherwise the first difference decides |
| `Catalog.Store.SaveView` | catalog/catalog.go:218-229 | Fails exactly for a bad name or selector and then changes nothing; otherwise stores the canonical text, and every stored view still parses |
| `Catalog.Store.ResolveView` | catalog/catalog.go:239-249 | Fails exactly for an unknown or unparsable view |
| `Catalog.SavedTextSelectsTheSame` | catalog/catalog.go:218-249 | Resolving the stored text and resolving the text it was saved from admit exactly the same results |
| `Catalog.SaveThenResolve` | catalog/catalog.go:218-249 | A view just saved resolves to what its source text selects |
| `Observe.ResolveObservationNames` | observe.go:153-216 | Unknown explicit names first, then an unknown view, then a parse error, in this order of precedence; otherwise the selected names |
| `Observe.NamesAreTheIntersection` | observe.go:182-215 | The names are the sorted, duplicate-free intersection of the explicit (or all) names, the view's matches and the selector's matches; exactly when the call succeeds |
| `SelectorMeaning.ProcessFields` | catalog/catalog.go:201-214 | What a requirement sees of a process: its live name, state, enabled flag and kind, which no stored label hides, and otherwise its stored labels |
| `SelectorMeaning.CandidateNames` | observe.go:165-180 | Without explicit names every process is a candidate, otherwise exactly those named |
| `Observe.CombinedMeansBoth` | observe.go:182-198 | The combined text parses exactly if both parse and no blank text is joined to another, and selects what both select |
| `Observe.BlankSelectorBesideAView` | observe.go:188-192 | A selector of spaces alone is fine and next to any saved view is an error |
| `Framing.FrameSplits` | logcodec/logcodec.go:163-216 | However the stream splits at newlines, the framed lines are those, each without its final CR |
| `Framing.FrameAppend` | logcodec/logcodec.go:163-194 | Framing a concatenation is framing its parts in turn, so a CRLF cut between two writes makes no difference |
| `Framing.FramesAgreeWithParser` | logstream/parser.go:23-61 | Framing agrees line for line with an unclipped line parser plus flush |
| `LineFormat.ContentsFramed` | logcodec/logcodec.go:163-216 | Framed line i is content i but for one final carriage return, and so for an unterminated rest |
| `LineFormat.CrlfFrame` | logcodec/logcodec.go:176-190 | A line that ends in CR LF is framed without either |
| `Framing.Adapter.Write` | logcodec/logcodec.go:163-194 | Emits exactly the completed lines and keeps the rest; the first refused write ends the call after that line's newline and is returned ever after; a closed adapter accepts nothing |
| `Framing.Adapter.Flush` | logcodec/logcodec.go:197-216 | Emits a pending unterminated line once; a refused one stays pending |
| `Framing.Adapter.Close` | logcodec/logcodec.go:218-234 | Emits the pending line at most once over all calls |
| `Framing.Convert` | logcodec/logcodec.go:155-161 | For every way of cutting a stream into chunks, the lines written are those of the whole stream, or the ones before the first the sink refused, or, if the reader fails at its end, the completed ones |
| `Reconcile.DefChanged` | daemon/daemon.go:312-334 | Two definitions differ exactly if they mean different things: an absent `enabled` is true, and the creation time does not count |
| `Reconcile.SameMeaning` | daemon/daemon.go:312-334 | Two definitions mean the same exactly if they agree in command, arguments, endpoint, interval, limit, port killing and charge, and both or neither are switched off |
| `Reconcile.DefAccepted` | daemon/config.go:48-62 | Which definitions are accepted |
| `Reconcile.DefinedRuns` | daemon/daemon.go:63-71 | A process as defined is starting with a run loop of its own, unless its definition says it is not enabled |
| `Reconcile.Daemon.Stop` | daemon/process.go:137-169 | The run loop is gone; the state is the definition's resting state, or Failed if the loop gave up meanwhile or before |
| `Reconcile.Daemon.Run` | daemon/daemon.go:63-71 | Afterwards every entry has a process, started exactly if enabled, and memory and processes agree |
| `Reconcile.Daemon.Register` | daemon/daemon.go:254-280 | A new, disabled, unstarted process, saved; any failure, that of saving included, changes nothing |
| `Reconcile.Daemon.Delete` | daemon/daemon.go:282-303 | The entry, the process and its run loop are gone; any failure changes nothing |
| `Reconcile.Daemon.Enable` | daemon/daemon.go:191-220 | The process is busy and runs the saved definition; after a failed save processes and memory still agree exactly if the angl was enabled before |
| `Reconcile.Daemon.Disable` | daemon/daemon.go:222-252 | The process is disabled with no run loop; after a failed save they still agree exactly if the angl was disabled before |
| `Reconcile.Daemon.Reload` | daemon/daemon.go:143-189 | Added, Restarted and Unchanged partition the new names and Removed is the old-only ones; unchanged processes keep identity, state and loop, others are new as the file wants them, no run loop is left without its process, and agreement holds exactly if it held for the processes kept |
| `Reconcile.SecondReloadChangesNothing` | daemon/daemon.go:143-189 | Reloading the same file again reports every name unchanged and changes nothing |
| `Reconcile.ReloadedAgrees` | daemon/daemon.go:162-186 | After a reload, processes agree with the file exactly if every process kept agreed with memory before |
| `Reconcile.FailedEnableIsKeptByReload` | daemon/daemon.go:200-207 | After a failed Enable the disagreement is real and a reload of an enabled file does not repair it |
| `ListenModel.Listener.ApplyUpdate` | listen.go:554-602 | Applies exactly as the replication client does, or reports the same error and changes nothing; the cursor stays on a surviving name, marks stay on surviving names only; every new or really different item is marked as changed at the time of the update, names a patch removes and adds back included, and every other change mark on a surviving item keeps its time |
| `ListenModel.Listener.ApplySnapshot` | listen.go:516-552 | The same for snapshots; the registration's snapshot marks nothing, and leaves old change marks on existing items exactly if it names them all |
| `ListenKeys.SnapshotMarksExactly` | listen.go:516-545 | Which names carry a change mark after a snapshot, and of which time |
| `ListenKeys.PatchMarksExactly` | listen.go:575-590 | Which names carry one after a patch, and of which time |
| `ListenModel.Listener.RestoreSelection` | listen.go:637-652 | The cursor is on the given name if it exists, otherwise clamped into the list |
| `ListenModel.Listener.UpdateVisualSelection` | listen.go:449-472 | While a range is marked, the marks are the earlier ones and the range clamped to the list, the cursor's row included |
| `ListenModel.Listener.MoveCursor` | listen.go:443-447 | The cursor moves within the list and the marks follow |
| `ListenModel.Listener.TargetNames` | listen.go:389-403 | The marked names in order, or the cursor's if none is marked |
| `ListenModel.Listener.ToggleVisualSelection` | listen.go:425-441 | Toggles range marking on a non-empty list; starting it keeps the earlier marks as its base |
| `ListenModel.Listener.HandleKey` | listen.go:199-275 | Each navigation key moves the cursor to its place in the list, with a marked range following; Space toggles the cursor's mark, V starts or ends a range, Esc clears all marks; a confirmation, the help page and every other key leave cursor and marks alone |
| `ListenModel.LaunchRules` | listen.go:342-378 | An action is launched only when none is under way and on at least one name; a deletion exactly by confirming it, on the names targeted when it was asked for |
| `ListenKeys.LaunchedBy` | listen.go:199-378 | Which action each key launches on which names: e, s, + and - on the targets, Enter on what a confirmed deletion named, and no other key |
| `ListenKeys.ScreenAfter` | listen.go:199-256 | What is shown after each key: quitting, the help page, the details, a pending g |
| `ListenKeys.ConfirmationAfter` | listen.go:269-365 | When a confirmation appears, ends, and which answer it stands at, for each key |
| `ListenKeys.NavigationKeys` | listen.go:199-256 | Exactly which keys move the cursor or change marks, and when |
| `ListenKeys.CursorAfter` | listen.go:221-247 | Where each key puts the cursor |
| `ListenKeys.ClampStays` | listen.go:654-664 | Clamping leaves a row in the list alone and brings any other to the nearest end |
| `ListenKeys.RangeMarks` | listen.go:449-472 | A range is exactly the names on the rows from the anchor to the cursor, in either direction |
| `ListenKeys.FlippedMarks` | listen.go:411-423 | Space changes the mark of the name under the cursor and of no other |
| `ListenKeys.TargetNames` | listen.go:389-403 | A name is a target exactly if it is marked or, with nothing marked, under the cursor |
| `ListenModel.Listener.Tick` | listen.go:321-337 | A tick moves nothing: it refreshes elapsed fields and forgets changes at least three seconds old; the other change marks keep their time |
| `ListenModel.TickIsRefresh` | listen.go:490-514 | The listener's tick is a tick of the replication protocol, so convergence holds for it |
| `ListenKeys.ElapsedFields` | listen.go:490-514 | Each elapsed field of each item: what it shows when its timestamp is known, and that it stays otherwise |
| `ListenModel.Listener.Update` | listen.go:199-340 | Every key, registration, update, action result, tick, connection error and window size does what it is for, and keeps the cursor in range and marks, range base and change marks on existing items |

## Left out

- Timestamps of the supervisor (`nextRun`, `lastExit`, `started`) and the status rendering built from them.
- The wrap-around of version, listener and sequence counters, which are 64-bit in the original.
- The definition of a running loop is fixed for the loop; the original's reads of it race with Enable and Disable.
- Scheduling fairness: which step comes next is arbitrary, so progress is stated as a bound on steps or as a step being enabled.
- The run loop is a program counter with one step a critical section or blocking operation, since its steps interleave with callers; it is not one method.
- Calls of Enable, Disable, Register, Delete and Reload that overlap; they are modelled one after another.
- Reconcile.Daemon.Reload: processes are values with serial numbers, not objects, so aliasing of process objects is not modelled; run loops are sets of names and serial numbers, whose own steps are in `Supervisor`.
- Killing the holder of a port, launching, reaping, the log file of a child and everything else foreign; a launch succeeds or fails, a child exits.
- Pipes, JSON and RPC; between publisher and client there is a FIFO wire, and the choice of encoding by size is arbitrary.
- Tail.Follow: does not state exactly-once delivery after a file is rewritten or truncated in place, because the prefix sample is not taken again after a rewind (logstream/source.go:89-96, 124-130).
- Tail.SourceState.Poll: a file that appears at the path and leaves it between two polls is not followed, as in the original; the theorems speak of the files opened.
- Seeking is taken to succeed, and closing a handle does nothing.
- The name and path carried on every line, and decoding of invalid UTF-8.
- The record a framed line becomes: JSON extraction, severities, timestamps and attributes (logcodec/logcodec.go:236-321).
- Labels in the catalog are read, not written: Annotate, RemoveLabels, Delete and DeleteView are simple map updates.
- Loading, locking and atomic replacement of the configuration and catalog files; a store is a whole value, and saving succeeds or fails.
- `time.ParseDuration` and the reading of timestamps are parameters.
- The listener's notices, recent-changes line and rendering; an action's results are only whether all succeeded.
- Marks are sets of names; the original's maps never hold false.
- While a range is being marked, an update leaves its anchor at the same position, as in the original, so the anchor may come to stand on another name.
