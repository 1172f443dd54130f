# netx in Dafny

netx is a small reactor library in C++: event loops over epoll or io_uring, connections with pooled
buffers, timers, a lock-free ring for log lines, and two protocols on top (WebSocket frames and the
packets of two push services). This project models the parts whose correctness is not visible in any
one function, and proves it about every run and every input. `dafny verify dfyconfig.toml` checks it.

| files | subject |
|---|---|
| `MpmcRing`, `MpmcPromises`, `MpmcQueue`, `MpmcWords`, `WordRing` | the bounded multi-producer, multi-consumer ring of the logger |
| `EventLoopMachine`, `EventLoopTurns`, `EventLoop` | wake-up coalescing and the double-buffered task queue |
| `PollerSpec`, `PollerWants`, `IoUringPoller` | watchers against a kernel that completes and cancels polls in any order |
| `SendPath`, `TcpConnection` | sending over a backlog, write interest, the channel's mask cache |
| `TcpServerTable`, `TcpServerEffects`, `TcpServer` | the connection table and its deferred removal |
| `TimerWheelSpec`, `TimerWheel`, `TimerWheelRuns` | firing, cancellation and slot arithmetic |
| `Buffer` | the byte queue over pool blocks and heap |
| `StreamParser`, `WebSocketFrames`, `WebSocketWire`, `WebSocketServer`, `Packets`, `PacketWire`, `PushServer`, `Sha1`, `Bytes` | codecs over streams |
| `Subscriptions` | the inverted subscription index |

Most imperative parts come twice (`Buffer` and `Sha1` are specified in place). One module holds the
state as a value, with the transitions or functions that say what the code does and the lemmas about
whole runs. The other holds a class whose methods change fields, arrays and maps as the C++ does, and
whose postconditions tie the new state to those functions. Where threads share state, every atomic
access is one step; the methods of `MpmcQueue` and `EventLoop` let arbitrary steps of other threads
happen between any two accesses, and use of them only what follows from those steps.

Several promises do not hold of the code as written. The model keeps the code and states exactly when
the promise holds; where the condition does not itself name the failing inputs, a lemma gives one:

- A send that finds the whole backlog accepted by `writev` never retrieves it
  (`src/tcp_connection.cc:200-213`, `274-294`), so `HandleWrite` sends it again
  (`SendPath.BacklogIsSentTwice`). The byte stream is conserved exactly on runs that do not enter that
  branch with bytes queued (`SendPath.LiteralConservesIff`), and on all runs once the branch retrieves
  (`SendPath.RetrievingConserves`).
- `Tick` drops the milliseconds below a whole slot (`src/timer_wheel.cc:89-102`), so a cancellation can
  look in the wrong slot and the callback still runs (`TimerWheelRuns.DriftStrandsATimer`,
  `CancelledFiresIff`, `CancellationWorksIff`). Whole-slot ticks are safe (`WholeSlotRunsStayTidy`).
- A channel added again while its old watcher waits for deletion is lost
  (`PollerSpec.RegisterWorksIff`, `ReAddIsLost`, `ReAddRun`); from generation 2^30 on a watcher ignores
  its own completions and its channel falls silent (`OwnPollRecognisedIff`, `DeafIsSilent`,
  `ManyChangesSilence`); a registration under an id still in use breaks the tables (`StepMatchedIff`).
- A connection that sends after it has closed can return to the poller: when something is left over,
  and also when a vector send finds no backlog and everything is taken
  (`SendPath.SendAfterCloseRegistersIff`, `ClosedChannelReturnsIff`). Exactly such sends let a channel
  outlive its table entry (`TcpServerTable.PolledAreInTableIff`, `NextPollReachesHeldIff`,
  `LateSendStrandsAChannel`).
- A ring of one cell, which capacities 0 and 1 give, overwrites lines (`MpmcPromises.OneCellLosesALine`).
- A 64-bit WebSocket length close to 2^64 wraps in the size test and ends in an exception
  (`src/websocket_server.cc:619-622`; `WebSocketFrames.ThrowsIff`, `TenBytesThrow`, `ThrownForGood`).
- Counts and lengths of 65536 and more are cut in the push messages
  (`Packets.CodesRoundTripIff`, `LoginRoundTripIff`).

## Model

| member | source | states |
|---|---|---|
| MpmcRing.InitInv | src/logging.cc:137-145 | a freshly constructed ring of at least two cells satisfies the ring invariant |
| MpmcRing.StepKeepsInv | src/logging.cc:147-196 | every atomic access of every thread (call, load, read, give up, reload, claim, move, store) keeps the ring invariant: 0 <= enq - deq <= capacity; each cell's sequence is a ticket of its residue class, or that ticket plus one, and means what it should; each ticket between its CAS and its store has one owner |
| MpmcRing.RunKeepsInv | src/logging.cc:147-196 | the invariant holds throughout every finite run, positions only grow and the push history is only extended |
| MpmcRing.ReachableInv | src/logging.cc:135-196 | the same for every state reachable from construction, for any number of threads |
| MpmcRing.FreeAtClaim | src/logging.cc:155-159 | at its successful CAS a pusher's cell is really free for its ticket and the ring has room; this is where two cells are needed |
| MpmcRing.PublishedAtClaim | src/logging.cc:180-184 | at its successful CAS a popper's cell really holds the line of its ticket |
| MpmcRing.OwnersApart | src/logging.cc:167-168 | two threads between CAS and sequence store never hold the same cell |
| MpmcPromises.TicketsCarryTheirLines | src/logging.cc:147-196 | nothing lost, duplicated or reordered: a line taken under pop ticket p is the line pushed under p; until it is taken it lies in the cell of p, unless its push has not published it |
| MpmcPromises.QuiescentRingIsAQueue | src/logging.cc:147-196 | with no call between CAS and store, the pops have taken exactly the first deq pushed lines in order and the cells hold exactly the rest |
| MpmcPromises.FinishedCalls | src/logging.cc:147-196 | a push that returned true has its line under its ticket and the caller's string is moved from; one that returned false leaves the caller's line intact; a popped line is the one pushed under that ticket |
| MpmcPromises.PushFailsIffFull | src/logging.cc:152-162 | the sequence load makes push return false exactly when its ticket is the next one and ticket pos - capacity is not released |
| MpmcPromises.PopFailsIffEmpty | src/logging.cc:177-187 | the sequence load makes pop return false exactly when its ticket is the next one and is not published |
| MpmcPromises.OneCellLosesALine | src/logging.cc:204-208 | the premise of two cells is needed: on the one-cell ring that capacity 0 or 1 gives, two pushes both succeed and the first line is overwritten |
| MpmcWords.MaskIsResidue | src/logging.cc:151 | masking with capacity - 1 picks the cell pos mod capacity |
| MpmcWords.RoundUpToPowerOf2 | src/logging.cc:204-208 | the least power of two not below n, and 1 exactly for n <= 1 |
| MpmcWords.RoundUpEndsIff | src/logging.cc:204-208 | the 64-bit loop ends exactly for n <= 2^63; above, its shift reaches zero |
| MpmcWords.SignedDiffIff | src/logging.cc:153-154 | the signed difference of two wrapped 64-bit tickets is the true difference exactly when that fits 64 bits |
| MpmcWords.WordKeepsCell | src/logging.cc:151 | wrapping a ticket to 64 bits does not change its cell |
| MpmcWords.RunKeepsSeenNear | src/logging.cc:152-154 | in every run a sequence a thread has read is at most one round behind the ticket it read it for |
| MpmcWords.WordsDecideAlike | src/logging.cc:153-181 | however often the 64-bit words have wrapped, a thread whose ticket is fewer than 2^63 tickets old takes the same branch and the same CAS outcome as with unbounded tickets |
| WordRing.StepSimulated | src/logging.cc:147-196 | every step of the ring on 64-bit words (masked index, signed difference, wrapped position and sequence) is a step of the ring with unbounded tickets, for a thread whose ticket is young |
| WordRing.WordRunsAreRuns | src/logging.cc:147-196 | every run on 64-bit words from a new ring of 2^k cells is step for step the image of a run with unbounded tickets, however often the words wrap, up to the first state in which some thread is about to compare a ticket 2^63 tickets old |
| MpmcQueueCode.MpmcQueue.constructor | src/logging.cc:137-145 | the array and the positions start as the initial state of the transition system |
| MpmcQueueCode.PushOvertaken | src/logging.cc:153-163 | a pusher that reads a sequence later than its ticket has been overtaken: the push position is past its ticket |
| MpmcQueueCode.PopOvertaken | src/logging.cc:178-188 | the same for pops |
| MpmcQueueCode.MpmcQueue.PushReadSequence | src/logging.cc:151-154 | one step of the system, counted as a load of this thread; a sequence behind the ticket was seen in a full state between call and return, one ahead of it means another thread has claimed the ticket |
| MpmcQueueCode.MpmcQueue.PushCas | src/logging.cc:155-159 | the weak compare-exchange; success claims the ticket for this line; it fails only when it is told to for no reason or another thread has claimed the ticket, and then the current position is in now |
| MpmcQueueCode.MpmcQueue.PushMoveLine | src/logging.cc:167 | the line goes into the cell and out of the caller's string |
| MpmcQueueCode.MpmcQueue.PushStoreSequence | src/logging.cc:168 | publishing completes the call with its ticket |
| MpmcQueueCode.MpmcQueue.Push | src/logging.cc:147-170 | under arbitrary steps of other threads between its accesses: true means the call has completed under a ticket claimed after it began, which carries the line, and the caller's string is moved from; false means the call has given up with the line still the caller's, and the ring was full at some moment during the call; still going round after n rounds means n loads of a sequence, and for every round whose compare-exchange did not fail for no reason another thread has claimed a push ticket |
| MpmcQueueCode.MpmcQueue.PopReadSequence | src/logging.cc:176-179 | one step of the system, counted as a load of this thread; a sequence behind pos + 1 was seen in an empty state between call and return, one ahead of it means another thread has claimed the ticket |
| MpmcQueueCode.MpmcQueue.PopCas | src/logging.cc:180-184 | success claims the pop ticket; it fails only when it is told to for no reason or another thread has claimed the ticket |
| MpmcQueueCode.MpmcQueue.PopMoveLine | src/logging.cc:192 | the line taken is the one the cell holds |
| MpmcQueueCode.MpmcQueue.PopStoreSequence | src/logging.cc:193-194 | the cell is released for ticket pos + capacity |
| MpmcQueueCode.MpmcQueue.Pop | src/logging.cc:172-196 | true means the call has completed under a pop ticket claimed after it began and delivers the line pushed under that ticket; false means it has given up, and the ring was empty at some moment during the call; still going round means as many loads as rounds, and a ticket claimed by another thread for every round that did not fail for no reason |
| EventLoopMachine.NextKeepsInv | src/event_loop.cc:60-190 | every access of the loop thread and of every producer keeps: tasks conserved in order; a set flag has its wake-up on the way or being handled; work that appeared after the loop looked comes with a wake-up; a quit request is seen |
| EventLoopMachine.RunKeepsInv | src/event_loop.cc:60-190 | the invariant throughout every run of any number of threads |
| EventLoopMachine.NoLostWakeup | src/event_loop.cc:60-95 | whenever the loop is in Poll with tasks queued, the timeout is 0, or the eventfd is readable, or a producer between its push and its write is certain to write |
| EventLoopMachine.TasksRunInOrder | src/event_loop.cc:113-190 | tasks started, swapped out and queued, one after another, are exactly the tasks ever queued: each runs at most once, in order, across the buffer swap |
| EventLoopMachine.SleepingLoopIsDone | src/event_loop.cc:60-190 | when the loop waits with nothing to wake it and no call is under way, every task has run and no quit request is pending |
| EventLoopTurns.WakeupsCoalesce | src/event_loop.cc:122-172 | over any run: between a call that reaches the flag and the next clearing by the loop, no other call writes to the eventfd because of a task |
| EventLoopMachine.ExitsOnlyWhenAsked | src/event_loop.cc:61-101 | Loop returns only after Quit |
| EventLoopTurns.TurnsUnlessAsked | src/event_loop.cc:61-66 | at the top of the loop: it leaves exactly when quit is set, and goes for another turn exactly when it is not |
| EventLoopTurns.LoopNeverStuck | src/event_loop.cc:60-95 | in every state outside its own calls the loop thread has a next step until it has left |
| EventLoopTurns.EventsTakenInOrder | src/event_loop.cc:81-93 | the events of a batch are taken one by one from the front, wake-ups into the drain and all others into their callbacks; the timers come when none is left |
| EventLoopCode.OthersLeaveAlone | src/event_loop.cc:113-128 | any steps of other threads are a run of the machine and leave a thread's own call alone, and the loop's position, buffer and executed tasks when that thread runs the loop |
| EventLoopCode.CallsLeaveLoop | src/event_loop.cc:113-128 | any steps of queue and quit calls, the loop thread's own among them, are a run of the machine and leave the loop where it is |
| EventLoopCode.EventLoop.Append | src/event_loop.cc:114-117 | the locked push gives the task the last place in the queue order |
| EventLoopCode.EventLoop.CasWakeup | src/event_loop.cc:122-126 | the flag is up, and exactly the caller that raised it goes on to write |
| EventLoopCode.EventLoop.QueueInLoop | src/event_loop.cc:113-128 | from any thread, under interference: the call is a run of the machine that ends outside the call, in which the task takes a place in the queue order after the call began |
| EventLoopCode.EventLoop.Quit | src/event_loop.cc:98-101 | under interference: on return the quit flag is set and the eventfd has just been written |
| EventLoopCode.EventLoop.HandleWakeup | src/event_loop.cc:166-172 | reads until a read finds the counter at zero, then clears the flag; not done after maxReads means as many reads found it positive |
| EventLoopCode.EventLoop.DoPendingTasks | src/event_loop.cc:175-190 | runs, in order, exactly the tasks queued when it took the lock, with user code and other threads interleaved |
| PollerSpec.DecodeEncode | src/iouring_poller.cc:27-40 | user data round-trips id, kind and the low 30 bits of the generation |
| PollerSpec.GenerationSurvivesIff | src/iouring_poller.cc:29-40 | the generation survives the round trip exactly below 2^30 |
| PollerSpec.AllocatedIds | src/iouring_poller.cc:104-110 | ids run through 1 to 2^32 - 1 and start again at 1 |
| PollerSpec.DeliveredBitsWereWanted | src/iouring_poller.cc:42-58 | a report within the requested poll mask yields read and write events only if they were wanted |
| PollerSpec.AskedBits | src/iouring_poller.cc:42-49 | each of reading, priority data and writing is polled for exactly when it is wanted; errors, hang-ups and nothing else always are |
| PollerSpec.ReportedBits | src/iouring_poller.cc:51-58 | each reported kind of event is handed up, bit by bit, priority data as readable, and nothing else |
| PollerSpec.StepKeepsInv | src/iouring_poller.cc:127-282 | every Add, Mod, Del, kernel completion and processed completion keeps the table and arming invariant |
| PollerSpec.RunKeepsInv | src/iouring_poller.cc:127-282 | the invariant throughout every run, whatever order the kernel completes or cancels in and with whatever results |
| PollerSpec.WatchersAfterRun | src/iouring_poller.cc:127-152 | a watcher not being deleted has exactly one poll of its current generation outstanding, asking for its current mask, unless its last poll ended in an error or an empty mask; a watcher being deleted is gone once none is outstanding |
| PollerSpec.StepMatchedIff | src/iouring_poller.cc:154-282 | of all actions only a registration under an id still in use makes watchers_ and id_index_ disagree, and each one does |
| PollerSpec.TablesAfterRun | src/iouring_poller.cc:171-172 | watchers_ and id_index_ stay inverse to each other in every run that never hands out an id still in use |
| PollerSpec.DeliveredIsCurrent | src/iouring_poller.cc:229-261 | an event is delivered only for the current poll of a watcher not being deleted, armed with the mask wanted now |
| PollerSpec.DeliversIff | src/iouring_poller.cc:229-261 | an event is handed up, with these bits, exactly when the completion is of the poll a watcher not being deleted waits for and reports something; otherwise nothing is |
| PollerSpec.FailsIff | src/iouring_poller.cc:236-247 | a poll is recorded as failed exactly when the watcher it belongs to waits for it and it brings an error or an empty mask |
| PollerSpec.AsksExactly | src/iouring_poller.cc:127-282 | what each action puts to the kernel: a change or deletion cancels the armed poll, a registration and a handed-up event poll with the next generation, nothing else asks for anything |
| PollerSpec.LeavesIff | src/iouring_poller.cc:195-282 | when a channel leaves the watchers: on a deletion with no poll outstanding, or with the completion of the poll its deletion waits for |
| PollerWants.WantedStep | src/iouring_poller.cc:127-282 | what each action makes of the events a channel is registered for; completions change nothing |
| PollerWants.WantedIsAskedLast | src/iouring_poller.cc:154-261 | over any run that does not delete the channel its events are those of its last registration |
| PollerWants.KernelPollsForAskedLast | src/iouring_poller.cc:127-261 | from the empty poller, over any such run: the one poll outstanding for the channel asks the kernel for exactly the events registered last, unless its current poll has failed |
| PollerSpec.DelMakesGone | src/iouring_poller.cc:195-207 | Del marks or removes the watcher and delivers nothing |
| PollerSpec.NothingAfterDel | src/iouring_poller.cc:195-282 | after Del, and until the channel is registered again, no event is delivered for it over any run, whatever the counters |
| PollerSpec.RunIsLoose | src/iouring_poller.cc:127-282 | every state a run reaches satisfies what NothingAfterDel asks for |
| PollerSpec.RegisterWorksIff | src/iouring_poller.cc:127-193 | Add and Mod leave the channel polled for the new mask exactly when no earlier watcher of it waits for deletion |
| PollerSpec.ReAddIsLost | src/iouring_poller.cc:154-193 | a channel deleted and added again before its completion is processed is erased by that completion |
| PollerSpec.ReAddRun | src/iouring_poller.cc:154-282 | the same from the empty poller: add, completion, delete, add, process; the channel is in no table |
| PollerSpec.OwnPollRecognisedIff | src/iouring_poller.cc:229-232 | a watcher's own completion is acted on exactly while its generation is below 2^30 |
| PollerSpec.DeafIsSilent | src/iouring_poller.cc:29-40 | once a watcher's generation has reached 2^30, its channel gets no event over any run, also after deleting and adding it again, until 2^32 wraps around |
| PollerSpec.ManyChangesSilence | src/iouring_poller.cc:127-193 | from the empty poller, one Add and n changes give generation n + 1, and from 2^30 - 1 changes on the channel is silent |
| IoUringPollerCode.IoUringPoller.AllocId | src/iouring_poller.cc:104-110 | the next id, skipping zero, with 32-bit wrap-around |
| IoUringPollerCode.IoUringPoller.SubmitPollAdd | src/iouring_poller.cc:127-142 | the new tables, generation and outstanding request |
| IoUringPollerCode.IoUringPoller.SubmitPollRemove | src/iouring_poller.cc:144-152 | a cancellation of the current generation when armed |
| IoUringPollerCode.IoUringPoller.Add | src/iouring_poller.cc:154-175 | the whole new state of the tables and the kernel; the tables stay matched exactly when the id is not in use |
| IoUringPollerCode.IoUringPoller.Mod | src/iouring_poller.cc:177-193 | the whole new state of the tables and the kernel; the tables stay matched exactly when no id in use is handed out |
| IoUringPollerCode.IoUringPoller.Del | src/iouring_poller.cc:195-207 | the whole new state of the tables and the kernel; the channel is marked or gone, the tables stay matched |
| IoUringPollerCode.IoUringPoller.HandlePollCqe | src/iouring_poller.cc:229-261 | the new state; exactly one event with the reported bits is appended for a current completion of a watcher not being deleted that reports something, and nothing otherwise |
| IoUringPollerCode.IoUringPoller.HandleRemoveCqe | src/iouring_poller.cc:263-272 | the new state; nothing is delivered |
| IoUringPollerCode.IoUringPoller.MaybeCleanup | src/iouring_poller.cc:274-282 | the watcher leaves both tables exactly when it is marked and unarmed |
| IoUringPollerCode.IoUringPoller.ProcessCqe | src/iouring_poller.cc:209-227 | looks the watcher up by id and dispatches by kind; the tables stay matched |
| IoUringPollerCode.IoUringPoller.Poll | src/iouring_poller.cc:284-344 | draining any batch of completions is the run of their processing; the array returned is exactly what they deliver, nothing of it for a deleted channel; the tables stay matched |
| TimerWheelSpec.AddKeepsInv | src/timer_wheel.cc:27-61 | adding keeps: one slot per timer, registered timers in the wheel, nothing due; the new timer is registered and lies in exactly its computed slot, all others keep slot and data |
| TimerWheelSpec.AddGoesLast | src/timer_wheel.cc:27-61 | the new timer goes to the back of the list its whole seconds lead to, and no other list changes |
| TimerWheelSpec.SlotIsReached | src/timer_wheel.cc:144-149 | the slot of an expiry time is the one reached after the whole seconds still to go, modulo 60 |
| TimerWheelSpec.WithoutKeepsOrder | src/timer_wheel.cc:74-78 | erasing from a list keeps the order of the rest |
| TimerWheelSpec.RemoveKeepsInv | src/timer_wheel.cc:68-83 | cancelling keeps the same, unregisters exactly this timer and touches no other |
| TimerWheelSpec.TickKeepsInv | src/timer_wheel.cc:85-106 | a tick keeps the same: all timers left expire strictly after the wheel's time |
| TimerWheelSpec.FireAtShrinksDue | src/timer_wheel.cc:151-184 | each firing removes exactly one timer from the due ones, even when it re-arms into the list being walked |
| TimerWheelSpec.FireAtKeepsOrder | src/timer_wheel.cc:155-182 | a firing takes the first due timer of the walked list; what is due behind it and in all other lists stays, in order, even when the timer is re-armed |
| TimerWheelSpec.FiredAllDue | src/timer_wheel.cc:151-184 | a scan that leaves nothing due has fired exactly the due timers |
| TimerWheelSpec.FiredThenNothing | src/timer_wheel.cc:93-105 | the repeated scans of one tick fire nothing beyond the first |
| TimerWheelRuns.TickFiresDueOnce | src/timer_wheel.cc:85-106 | a tick runs each due callback exactly once and no other, repeating or not |
| TimerWheelRuns.SingleShotFiresOnce | src/timer_wheel.cc:85-184 | over any run without its cancellation, a single-shot timer fires exactly once, at the first tick whose time reaches its expiry, and is then gone |
| TimerWheelRuns.AddedOnceFiresOnce | src/timer_wheel.cc:27-61 | from the addition on, over any run without its cancellation: a timer added without repetition has fired once if the clock has reached the time of the addition plus the delay, at least 1 ms, and not at all otherwise, and is then gone |
| TimerWheelRuns.AddedRepeatsFires | src/timer_wheel.cc:27-61 | a timer added with repetition stays registered; each tick that reaches its expiry fires it once and arms it for the tick's time plus the delay; nothing else fires it or moves its expiry |
| TimerWheelRuns.GoneIsForever | src/timer_wheel.cc:68-184 | a timer that has left the wheel never fires again |
| TimerWheelRuns.RepeatingIsRearmed | src/timer.cc:20-25 | a due repeating timer is armed for the tick's time plus its interval and stays registered |
| TimerWheelRuns.TimeoutIsExact | src/timer_wheel.cc:108-131 | with the value GetNextTimeout returns: a tick before it fires no registered timer, a tick at it or later fires one |
| TimerWheelRuns.RemoveWorksIff | src/timer_wheel.cc:68-83 | cancelling takes the timer out of the wheel exactly when its slot is the one CalculateSlot gives now |
| TimerWheelRuns.CancelledFiresIff | src/timer_wheel.cc:68-83 | a cancelled timer still fires exactly when its slot did not agree |
| TimerWheelRuns.AgreesAfterTickIff | src/timer_wheel.cc:85-106 | a timer keeps its slot agreement over one tick exactly when its milliseconds past the slot boundary are at least those the tick drops |
| TimerWheelRuns.AddedIsWellPlaced | src/timer_wheel.cc:46-53 | a timer just added lies where a cancellation would look |
| TimerWheelRuns.CancellationWorksIff | src/timer_wheel.cc:68-106 | over any run: the cancellation of a timer that was well placed at the start takes it out of the wheel exactly when the slots the ticks have moved plus the whole slots still to go equal, modulo 60, the whole slots there were to go |
| TimerWheelRuns.RearmedAgreesIff | src/timer_wheel.cc:170-174 | when a re-armed timer agrees after the tick |
| TimerWheelRuns.WholeSlotRunsStayTidy | src/timer_wheel.cc:68-106 | while every tick advances by whole slots, lists and id table hold the same timers, each where a cancellation looks, so every cancellation works |
| TimerWheelRuns.DriftStrandsATimer | src/timer_wheel.cc:89-102 | a timer of 1500 ms cancelled after a tick at 900 ms fires all the same |
| TimerWheelCode.TimerWheel.CalculateSlot | src/timer_wheel.cc:144-149 | the slot of an expiry time |
| TimerWheelCode.TimerWheel.AddTimer | src/timer_wheel.cc:27-61 | the whole new wheel and the next id |
| TimerWheelCode.TimerWheel.RemoveTimer | src/timer_wheel.cc:68-83 | the whole new wheel |
| TimerWheelCode.TimerWheel.ScanSlot | src/timer_wheel.cc:155-182 | the walk over a list that grows at its back ends, has fired what was due in it front to back, leaves nothing due in it and nothing changed in what is due elsewhere |
| TimerWheelCode.TimerWheel.ProcessExpiredTimers | src/timer_wheel.cc:151-184 | fires due timers once each, list by list from the current slot and front to back, until nothing is due |
| TimerWheelCode.TimerWheel.Tick | src/timer_wheel.cc:85-106 | fires exactly the due timers, list by list from the slot of its first scan and front to back; clock and slot move, the invariant is kept |
| TimerWheelCode.TimerWheel.GetNextTimeout | src/timer_wheel.cc:108-131 | -1 exactly for an empty map, never 0, otherwise the distance to the earliest expiry |
| Buffers.BufferPool.Acquire | src/buffer.cc:50-58 | the last free block, or a new one when none is free; it backs no live buffer |
| Buffers.BufferPool.Release | src/buffer.cc:61 | a backing block becomes free |
| Buffers.Buffer.constructor | src/buffer.cc:72-79 | an empty byte queue on a block of its own, the last free one of the pool exactly up to the block size and a heap array of the size asked for beyond; other buffers keep their bytes |
| Buffers.Buffer.Destroy | src/buffer.cc:82-88 | exactly the buffer's own block goes back to the pool, and only if it is a pool block; other buffers keep their bytes |
| Buffers.Buffer.Retrieve | src/buffer.cc:91-97 | drops min(len, readable) bytes from the front |
| Buffers.Buffer.RetrieveAll | src/buffer.cc:100 | drops everything |
| Buffers.Buffer.Peek | include/netx/buffer.h:40 | the unread bytes, oldest first |
| Buffers.Buffer.MakeSpace | src/buffer.cc:115-153 | the unread bytes survive and there is room for len; the storage is kept exactly when moving them to the front makes enough room, otherwise it is a new heap array with exactly that room |
| Buffers.Buffer.Compact | src/buffer.cc:146-152 | the overlapping move keeps the unread bytes |
| Buffers.Buffer.MigrateToHeap | src/buffer.cc:124-140 | the unread bytes survive, the block goes back to the pool |
| Buffers.Buffer.GrowHeap | src/buffer.cc:143 | the unread bytes survive the resize |
| Buffers.Buffer.Append | src/buffer.cc:103-107 | the queue is extended by the data; the storage is kept exactly when the unread bytes and the data fit it |
| Buffers.Buffer.ReadFd | src/buffer.cc:156-177 | exactly the bytes read, across both vectors, are appended; nothing on error |
| Buffers.BlocksApart | src/buffer.cc:31-88 | no block is both free and backing a live buffer, and no two live buffers share one |
| SendPath.SendStream | src/tcp_connection.cc:171-216 | what one send does to accepted bytes followed by backlog: payload appended, except that the branch for a backlog written completely leaves the old backlog in |
| SendPath.SendVecStream | src/tcp_connection.cc:219-298 | the same for the two-part send, treating its parts as one payload |
| SendPath.WireGrows | src/tcp_connection.cc:69-298 | whatever the action, the bytes the kernel has accepted grow by exactly the first bytes shown to it, backlog before payload, as many as its answer says |
| SendPath.ClosesIff | src/tcp_connection.cc:69-110 | of all actions on an open connection only a failed write with an error other than EAGAIN, EWOULDBLOCK or EINTR closes it, and only while a backlog is being written |
| SendPath.TryAgainChangesNothing | src/tcp_connection.cc:83-89 | a write that takes nothing or is to be tried again changes nothing |
| SendPath.RetrievingConserves | src/tcp_connection.cc:171-298 | with the retrieve that branch is meant to do: over any run of sends, vector sends and writable events and any partial writes, accepted bytes followed by backlog are all payloads in send order |
| SendPath.LiteralConservesIff | src/tcp_connection.cc:200-213 | as written, the byte stream is conserved exactly on the runs that never enter that branch with bytes queued |
| SendPath.BacklogIsSentTwice | src/tcp_connection.cc:200-213 | on a new connection one byte the kernel does not take yet, a second byte and a writable socket: three bytes reach the peer |
| SendPath.RunKeepsInv | src/tcp_connection.cc:69-298 | while connected: writing_, a non-empty backlog and write interest in the poller agree, and the channel's cached mask is the registered one |
| SendPath.WriteInterestFacts | src/channel.cc:25-60 | enabling and disabling write interest reaches the poller and keeps the cache in step |
| SendPath.UpdateReachesPoller | src/channel.cc:54-60 | after any update the poller holds the mask asked for, or nothing for an empty one: the cache only saves calls that would change nothing |
| SendPath.CloseCutsOff | src/tcp_connection.cc:93-97 | closing takes the channel out of the poller |
| SendPath.SendAfterCloseRegistersIff | src/tcp_connection.cc:171-298 | a send after that registers the channel again exactly when the kernel leaves something of backlog and payload, or it is a vector send that finds no backlog |
| SendPath.ClosedChannelReturnsIff | src/tcp_connection.cc:69-298 | over any run after the close: the poller holds the channel at the end exactly when some send of the run was such a send |
| TcpConnectionCode.Channel.UpdateChannel | src/event_loop.cc:131-148 | add, modify or delete the registration and the cache |
| TcpConnectionCode.Channel.Update | src/channel.cc:54-60 | goes to the loop only when mask and cache differ |
| TcpConnectionCode.Channel.EnableWriting | src/channel.cc:25-30 | sets the write bit and updates |
| TcpConnectionCode.Channel.DisableWriting | src/channel.cc:33-37 | clears the write bit and updates |
| TcpConnectionCode.Channel.Remove | src/channel.cc:63-67 | unregisters when registered |
| TcpConnectionCode.TcpConnection.constructor | src/tcp_connection.cc:17-25 | a connected state with an empty backlog and read interest |
| TcpConnectionCode.TcpConnection.SendInLoop | src/tcp_connection.cc:171-216 | the whole new state for any answer of write or writev |
| TcpConnectionCode.TcpConnection.SendVecInLoop | src/tcp_connection.cc:219-298 | the whole new state for any answer of writev |
| TcpConnectionCode.TcpConnection.HandleWrite | src/tcp_connection.cc:69-90 | the whole new state for any answer of write |
| TcpConnectionCode.TcpConnection.HandleClose | src/tcp_connection.cc:93-110 | disconnected, unregistered, not writing; nothing the second time |
| TcpServerTable.NextKeepsInv | src/tcp_server.cc:85-120 | every step of loop, acceptor and senders keeps: open connections are in the table under their own descriptor; closed ones exactly while their removal is queued |
| TcpServerTable.RunKeepsInv | src/tcp_server.cc:85-120 | the same throughout every run |
| TcpServerTable.PolledAreOpenIff | src/tcp_server.cc:98-117 | in every state of every run the poller holds channels of open connections only, exactly when no send that registers its channel has been executed on a closed connection |
| TcpServerEffects.PolledExactlyOpenIff | src/tcp_server.cc:85-120 | in every state of every run the poller holds the channel of every open connection, and exactly without such late sends no other |
| TcpServerEffects.HandoversBecomeConnections | src/tcp_server.cc:85-107 | every descriptor the acceptor hands over becomes one connection, in order: those built and those still queued are all there ever were |
| TcpServerEffects.CloseEffects | src/tcp_connection.cc:93-110 | a close takes the connection out of the open ones and out of the poller at once, queues its removal behind all else, and affects no other |
| TcpServerEffects.TaskEffects | src/tcp_server.cc:85-117 | a hand-over that has run leaves an open, polled connection in the table under its descriptor, a removal leaves its connection in no table; no other connection is affected |
| TcpServerTable.PolledAreInTableIff | src/tcp_server.cc:98-117 | at every poll, each registered channel belongs to a connection in the table under its own descriptor, exactly when no such late send has been executed |
| TcpServerTable.EventsReachHeldConnections | src/event_loop.cc:81-93 | without late sends every event of a batch reaches a connection the table still holds |
| TcpServerTable.NextPollReachesHeldIff | src/event_loop.cc:81-93 | at a poll, every batch it can hand out is for held connections exactly when no late send has been executed |
| TcpServerTable.TableKeptWhileHandling | src/event_loop.cc:81-93 | table entries change only in the pending-task phase |
| TcpServerTable.LateSendStrandsAChannel | src/tcp_connection.cc:219-252 | a run from the start: a connection closes, a vector send queued for it is taken completely, and at the next poll its channel is registered while the table is empty |
| TcpServerCode.IoLoop.NewConnectionInLoop | src/tcp_server.cc:85-107 | queues the hand-over and keeps the table invariant |
| TcpServerCode.IoLoop.HandleClose | src/tcp_connection.cc:93-110 | one close step: disconnected, unregistered, removal queued; nothing the second time; the invariant is kept |
| TcpServerCode.IoLoop.AddConnection | src/tcp_server.cc:88-99 | a new registered connection, entered unless its descriptor already has an entry |
| TcpServerCode.IoLoop.EraseConnection | src/tcp_server.cc:114-117 | the entry of its descriptor leaves the table |
| TcpServerCode.IoLoop.DoPendingTasks | src/event_loop.cc:175-190 | with tasks queued and sends executed at any point meanwhile: when the list has run, a connection is in the table under its descriptor exactly when it is open |
| WebSocketFrames.ThrowsIff | src/websocket_server.cc:600-622 | the exception is raised exactly when the extended header is complete and header and announced length reach 2^64 bytes |
| WebSocketFrames.TenBytesThrow | src/websocket_server.cc:600-622 | ten bytes announcing 2^64 - 1 raise it |
| WebSocketFrames.ThrownForGood | src/websocket_server.cc:600-622 | behind such a header no frame is ever taken, over any further chunks |
| WebSocketFrames.ParseInvertsEncode | src/websocket_server.cc:578-634 | section 5.2 of RFC 6455: for each length form, masked or not, parsing gives the frame back and consumes exactly its bytes, whatever follows |
| WebSocketFrames.BuildIsEncode | src/websocket_server.cc:823-851 | BuildFrame writes the unmasked encoding with the shortest length form |
| WebSocketFrames.ParseInvertsBuild | src/websocket_server.cc:823-851 | what BuildFrame writes is read back; opcode and flag exactly for four-bit opcodes |
| WebSocketFrames.MaskTwice | src/websocket_server.cc:623-629 | masking is its own inverse; that it is the masking of section 5.3 of RFC 6455 is MaskFlips |
| WebSocketWire.ParsesIff | src/websocket_server.cc:578-622 | a frame is taken exactly when as many bytes are there as header and announced length say, the length read byte by byte, and they stay below 2^64 |
| WebSocketWire.TakenFrame | src/websocket_server.cc:578-634 | flag, opcode, length, consumed bytes and, without a key, payload of a frame as bytes of the buffer |
| WebSocketWire.MaskFlips | src/websocket_server.cc:623-629 | masking flips, in byte i, exactly the bits set in byte i modulo 4 of the key |
| WebSocketWire.UnmaskedBits | src/websocket_server.cc:612-629 | section 5.3 of RFC 6455 on the bytes received: bit j of payload byte i differs from the byte received exactly when bit j of key byte i modulo 4 is set, the key being the four bytes before the payload |
| WebSocketWire.BuildIsShortest | src/websocket_server.cc:823-851 | no other unmasked encoding of the payload is shorter than what BuildFrame writes |
| WebSocketWire.HelloUnmasked | src/websocket_server.cc:823-851 | section 5.7 of RFC 6455: the unmasked text frame, written and read |
| WebSocketWire.HelloFragmented | src/websocket_server.cc:823-851 | section 5.7 of RFC 6455: the two fragments |
| WebSocketWire.HelloMasked | src/websocket_server.cc:578-634 | section 5.7 of RFC 6455: the masked text frame is read as Hello |
| WebSocketWire.Header256 | src/websocket_server.cc:833-838 | section 5.7 of RFC 6455: the header of 256 bytes |
| WebSocketWire.Header64K | src/websocket_server.cc:839-847 | section 5.7 of RFC 6455: the header of 64 KiB |
| WebSocketFrames.ParseOfLonger | src/websocket_server.cc:578-634 | more bytes never change a complete frame |
| WebSocketFrames.StrictPrefixNeedsMore | src/websocket_server.cc:581-620 | a strict prefix of a frame consumes nothing |
| WebSocketFrames.FramesIgnoreChunking | src/websocket_server.cc:578-634 | repeated parsing gives the same frames and remainder however the stream is cut |
| WebSocketFrames.FrameStreamIsReadBack | src/websocket_server.cc:578-634 | frames encoded one after another in any forms, cut anywhere, are read back exactly |
| WebSocketServerCode.ReadHead | src/websocket_server.cc:581-618 | the fixed bytes, the extended length and the key |
| WebSocketServerCode.ReadLength8 | src/websocket_server.cc:604-608 | the shifted-in length is the big-endian number |
| WebSocketServerCode.UnmaskInPlace | src/websocket_server.cc:625-628 | the loop flips, in every byte, exactly the bits set in its key byte, byte i modulo 4 of the key |
| WebSocketServerCode.ParseFrame | src/websocket_server.cc:578-634 | over the buffer: false leaves it as it is, true consumes exactly the frame, an impossible length raises the exception |
| WebSocketServerCode.BuildFrame | src/websocket_server.cc:823-851 | the loop form writes the frame of the specification |
| StreamParser.ParseAllSplits | src/websocket_server.cc:540-547 | for any parser whose items do not change with more input: parse now and the rest later, or all at once |
| StreamParser.ChunkingIsInvisible | src/websocket_server.cc:540-547 | the items of a stream do not depend on its chunks |
| StreamParser.EncodedStreamIsReadBack | src/websocket_server.cc:540-547 | encoded items, cut anywhere, are read back exactly |
| Sha1Stream.FoldSplits | src/websocket_server.cc:131-136 | compressing whole blocks splits over concatenation |
| Sha1Stream.PadShape | src/websocket_server.cc:140-157 | section 5.1.1 of FIPS 180-4: the message, a one bit, zero bits up to the last eight bytes, which hold the length in bits modulo 2^64, in the fewest whole blocks |
| Sha1Stream.PadAbc | src/websocket_server.cc:140-157 | the example abc of that section |
| Sha1Stream.PadOne | src/websocket_server.cc:140-157 | section 5.1.1 of FIPS 180-4 when the padding fits the last block |
| Sha1Stream.PadTwo | src/websocket_server.cc:144-157 | the two-block padding case |
| Sha1Stream.Sha1.Update | src/websocket_server.cc:122-138 | after any updates the object stands for exactly the bytes given so far |
| Sha1Stream.Sha1.Final | src/websocket_server.cc:140-157 | the state becomes the compression of the padded message, with the length in bits |
| Sha1Stream.Digest | src/websocket_server.cc:122-168 | any split of a message over Update followed by Final equals the fold over the padded whole |
| SubscriptionIndex.NormalizeFacts | src/websocket_server.cc:731-736 | the recorded list is increasing, without zero, and has exactly the ids named |
| SubscriptionIndex.UpdateKeepsInv | app/traffic_push/traffic_push_server.cc:233-261 | after an update the client is listed for each id exactly as often as it named it; the index stays in agreement |
| SubscriptionIndex.UpdateCounts | app/traffic_push/traffic_push_server.cc:233-261 | and every other client is listed as often as before |
| SubscriptionIndex.UpdateKeepsOthers | app/traffic_push/traffic_push_server.cc:233-261 | an update records the ids of its client and leaves record, listing, existence and connection of every other client as they were |
| SubscriptionIndex.UpdateLists | app/traffic_push/traffic_push_server.cc:233-261 | list by list: the client and the vanished are erased from the lists it was recorded for, the rest keep their order, and the client goes to the back of the lists it names |
| SubscriptionIndex.FilterSplits | app/traffic_push/traffic_push_server.cc:240-249 | erasing from a list is erasing from its parts, so the order of the rest stays |
| SubscriptionIndex.UpdateAgrees | app/traffic_push/traffic_push_server.cc:233-261 | for each client that still exists: never listed more often than its record names the id, and exactly as often if connected |
| SubscriptionIndex.RemoveKeepsInv | app/traffic_push/traffic_push_server.cc:264-282 | after a removal the client is in no list and recorded for nothing; every other client keeps its record and its places |
| SubscriptionIndex.PublishKeepsInv | src/websocket_server.cc:789-821 | a publication reaches each connected client as often as its record names the id, and pruning keeps the agreement |
| SubscriptionIndex.PublishLists | src/websocket_server.cc:789-821 | the targets are the connected clients of the list in its order; only that list changes, to exactly those |
| SubscriptionIndex.PublicationFollowsRequests | src/websocket_server.cc:727-821 | over any run in which a client stays, a publication reaches it as often as its own last update named the id, whatever other clients do |
| SubscriptionIndex.IndexAgrees | src/websocket_server.cc:727-821 | after any mix of updates, removals, publications, connections and closings: list occurrences equal recorded occurrences for connected clients, and no list is empty |
| SubscriptionIndex.OneFramePerSubscriber | src/websocket_server.cc:813-820 | with normalised lists each connected subscriber gets exactly one frame and nobody else one |
| SubscriptionCode.SubscriptionManager.Kept | src/websocket_server.cc:745-751 | erase(remove_if) on one list |
| SubscriptionCode.SubscriptionManager.UpdateSubscriptions | app/traffic_push/traffic_push_server.cc:233-261 | the whole new index and record; every other client is kept |
| SubscriptionCode.SubscriptionManager.UpdateNormalized | src/websocket_server.cc:727-761 | the same with the normalised list |
| SubscriptionCode.SubscriptionManager.RemoveConnection | src/websocket_server.cc:764-787 | the whole new index; the client is in no list and recorded for nothing, every other client is kept |
| SubscriptionCode.SubscriptionManager.PublishTo | src/websocket_server.cc:789-821 | targets counted per client, dead entries erased, records and clients untouched |
| Packets.PacketIsReadBack | app/traffic_push/traffic_push_server.cc:72-89 | one packet is read back whole, whatever follows |
| Packets.TakenBytesWereEncoded | app/traffic_push/traffic_push_server.cc:561-602 | what the loop takes was a packet of MakePacket byte for byte |
| Packets.DispatchedExactly | app/traffic_push/traffic_push_server.cc:561-602 | the loop dispatches these packets and leaves that remainder if and only if the bytes are the packets encoded one after another followed by a remainder that is not a whole packet |
| Packets.PacketsIgnoreChunking | app/traffic_push/traffic_push_server.cc:561-602 | dispatch depends only on the concatenated bytes |
| Packets.PacketStreamIsReadBack | app/traffic_push/traffic_push_server.cc:561-602 | packets sent one after another, cut anywhere, arrive exactly |
| Packets.RefusedForGood | app/traffic_push/traffic_push_server.cc:567-572 | once a length field is below the header size nothing more is ever dispatched |
| PacketWire.PacketBytes | app/stock_push/stock_push_server.cc:79-96 | a packet on the wire: its whole length in four bytes, its type in two, most significant first, then the body |
| PacketWire.TakesIff | app/stock_push/stock_push_server.cc:629-648 | a packet is taken exactly when six bytes are there and as many as the length in the first four says; the connection is shut exactly for a length below six |
| PacketWire.PingBytes | app/stock_push/stock_push_server.cc:142-144 | a ping is the bytes 0 0 0 6 0 3 |
| PacketWire.LoginBytes | app/stock_push/stock_push_server.cc:99-107 | a login with a short name, byte by byte, with type 1 |
| PacketWire.SubscribeBytes | app/stock_push/stock_push_server.cc:110-139 | a subscription to one short code, byte by byte, with type 2 |
| PacketWire.LoginReadIff | app/stock_push/stock_push_server.cc:670-683 | the name a login body gives, exactly when it holds as many bytes as it says |
| PacketWire.CodesReadIff | app/stock_push/stock_push_server.cc:698-724 | the codes a subscription body gives, exactly: those fields at its front, as many as its count, or fewer when the bytes run out |
| PacketWire.IdsBytes | app/traffic_push/traffic_push_client.cc:226-245 | identifier i of a numeric subscription stands in four bytes, most significant first |
| PacketWire.HandleByNumber | app/stock_push/stock_push_server.cc:651-666 | by the numbers of the protocol: type 1 sets the user, type 2 replaces the codes, type 3 earns a pong, and nothing else changes anything |
| PacketWire.PongsCountPings | app/stock_push/stock_push_server.cc:651-666 | every ping is answered once, whatever else is sent |
| PacketWire.LastSubscriptionCounts | app/stock_push/stock_push_server.cc:651-666 | the last subscription counts, whatever was sent before and whatever else comes after |
| Packets.CodesRoundTripIff | app/stock_push/stock_push_server.cc:110-139 | HandleSubscribe recovers the list given to BuildSubscribe exactly when the count and each length are below 65536 |
| Packets.CutCodesArePrefix | app/stock_push/stock_push_server.cc:698-724 | a body cut short yields a prefix of the codes |
| Packets.LoginRoundTripIff | app/stock_push/stock_push_server.cc:99-107 | HandleLogin recovers the user name exactly when it is shorter than 65536 |
| Packets.IdsReadIff | app/traffic_push/traffic_push_server.cc:643-679 | the traffic server takes these identifiers if and only if the body begins with their encoding |
| Packets.ClientIsUnderstoodIff | app/stock_push/stock_push_server.cc:629-746 | a client's login, subscription and pings, cut anywhere, leave the server with that user, those codes and one pong each if and only if the 16-bit lengths suffice |
| PushServerCode.Client.OnMessage | app/stock_push/stock_push_server.cc:629-668 | the session becomes that of all whole packets dispatched in order, the buffer keeps the remainder, and the connection is shut exactly for an impossible length |
| PushServerCode.Client.HandleLogin | app/stock_push/stock_push_server.cc:670-696 | the user changes exactly for a well-formed body |
| PushServerCode.Client.HandleSubscribe | app/stock_push/stock_push_server.cc:698-726 | the codes change for any body of at least two bytes |
| PushServerCode.ParseCodes | app/stock_push/stock_push_server.cc:705-724 | the pointer-and-remaining loop computes the codes of the specification |
| PushServerCode.BuildSubscribe | app/stock_push/stock_push_server.cc:110-139 | the loop writes the subscribe packet, counts and lengths cut to 16 bits |
| PushServerCode.ParseIds | app/traffic_push/traffic_push_server.cc:643-676 | all identifiers, or nothing when the body is too short for its count |

## Left out

- C++ memory ordering: every atomic access is sequentially consistent. The relaxed loads and stores of `src/logging.cc` and `src/event_loop.cc` are not distinguished.
- MpmcWords.WordsDecideAlike: speaks of threads whose ticket is fewer than 2^63 tickets old, as `WordRing.WordRunsAreRuns` does; a thread suspended for longer can mistake one ticket for another.
- MpmcWords.RoundUpToPowerOf2: is about the n for which the 64-bit loop ends, which `RoundUpEndsIff` determines.
- MpmcQueueCode.MpmcQueue.Push: the retry loop has no bound in the code; the method goes round as often as `flaky` has entries and then says it is still trying, with the line still the caller's. Which of the weak compare-exchanges fail for no reason is the input `flaky`.
- MpmcQueueCode.MpmcQueue.Pop: bounded by `flaky` in the same way.
- EventLoopCode.EventLoop.HandleWakeup: the read loop is bounded by `maxReads`, since other threads can keep writing.
- EventLoopMachine: the eventfd counter does not overflow; the events a poll reports are arbitrary, except that the wake-up channel is reported only while the counter is positive.
- PollerSpec.RunKeepsInv: speaks of runs with fewer than 2^32 - 2 ids handed out and generations below 2^30, and so do `StepKeepsInv` and `WatchersAfterRun`; what happens to a watcher from 2^30 on is `DeafIsSilent`.
- IoUringPoller: user data is kept as the tag it decodes to, which `DecodeEncode` justifies; watchers are values in a map, so the pointer in `id_index_` is the channel it belongs to. Submission-queue exhaustion, the waiting modes of `Poll` and the epoll fallback are not modelled.
- TimerWheel: `Timer` objects shared between the lists and the map live in one map by id. Tick times do not run backwards, elapsed slots fit an int and expiry times fit 64 bits; callbacks do not re-enter the wheel, which holds its mutex while they run.
- TimerWheelCode.TimerWheel.GetNextTimeout: starts its search from some entry of the non-empty map instead of from UINT64_MAX.
- TcpConnection: the epoll mask is two bits, reading and writing, since the code sets the three reading bits only together. HandleRead, timeouts and the close callback are left out.
- TcpServerTable: one I/O loop at a time; a connection is alive while the table or a queued task holds it. The kernel hands out only descriptors that no table entry and no earlier hand-over holds.
- Sha1: `Transform` is any function of state and block, so nothing is said about its rounds or about digest bytes; `Base64Encode` and the handshake are left out.
- WebSocketServer: what the server does with a frame (commands, pings, close frames) is left out; `HandleFrames` is represented by its loop around `ParseFrame`.
- SubscriptionManager of the stock service: it scans all lists instead of those recorded; the traffic and WebSocket versions are modelled. A weak pointer is a client that is alive or not, and locks are not modelled.
- Packets.PacketStreamIsReadBack: packets with a total length of 2^32 and more are excluded, since `MakePacket` then writes past its string.
- PushServerCode.Client.OnMessage: heartbeat times and logging are left out; a pong is counted, not sent through the connection.
- HttpParser, HttpServer, sockets, acceptors, addresses, `LogBackend`, prices, JSON text and the demo clients' main loops are not part of this model.
