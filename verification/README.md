# nrappkit verified model

A Dafny model of the parts of nrappkit whose correctness is hard to see by reading them, with
proofs that they do what the library promises. `dafny verify dfyconfig.toml` checks the whole
project.

## What is modelled

**The event scheduler** (`src/event`). A hashed timing wheel of 4096 slots and a one-shot event
loop over descriptors, both made of callback cells from one pool. `SchedulerSpec` is the scheduler
as its callers see it: a bag of (deadline, callback) pairs, a table of armed descriptors, a list of
scheduled callbacks and the batch being run, moving by events. Theorems about whole runs are proved
about every trace that machine accepts. `SchedulerState`, `SchedulerSteps`, `SchedulerWalk` and
`SchedulerBatch` hold the memory (cells, slots, free queue, working queue, descriptor table), its
invariant, and what each primitive step does to it. `EventLoop` is the imperative code: a class whose
methods unlink and recycle cells in place, mark tombstones, sweep them, and call callbacks in the
middle of the walk. A callback is an arbitrary finite script of set, cancel, schedule, wait and cancel
operations, so every method is proved for all callbacks; `SchedulerScripts` says that each operation is
answered by its event where it is made, call after call. Each method appends the events it stands for
to a ghost trace and keeps `Replay(trace) == Some(abs)`, which is the refinement; `SchedulerRuns` draws
the conclusions for a run of the class, `SchedulerFifo` those about the order callbacks run in,
`SchedulerCalls` those about one callback cancelling another, and `SchedulerSessions` has runs of the class
whose outcome is stated in full. `SchedulerTicks` says what becomes of a deadline that is kept in an int, and
`Timevals` is the clock arithmetic underneath.

**The tail queues** (`src/port/generic/include/sys/queue.h`). `Tailq` runs the TAILQ macros on link
fields: the address of a `next` field is the number of the element it is in. It is proved once that each
macro makes the queue the expected list and leaves other queues alone, so the scheduler's queues can be
taken as sequences. The one place where the scheduler goes around the macros, the copy of the queue head
before a batch is run, is proved at link level too: the copy can be walked to its end while its cells go
one by one to another queue. `SchedulerQueues` ties the two: on links, setting and cancelling a timer move a
cell between tail queues just as the steps of the scheduler move it between sequences.

**The chained hash table** (`src/util/libekr/r_assoc.c`). `AssocState` is its memory, with elements
linked both ways in one chain per hash value, for any hash function into the table; `Assoc` has the
operations in place, `AssocIteration` the iterator and its delete, `AssocCopy` the copy. `Links` is
shared by the linked structures, and `Options` by all.

**The registry** (`src/registry`). Dotted names kept in one flat table. `RegistryNames` and
`RegistrySpec` say what each operation does to the table and which events it raises, when the table
remains a tree, and what a run of operations keeps. `LocalRegistry` is the imperative code proved against
it, `RegistryChildren` the enumeration of children, `RegistryPaths` the making and cutting of names,
`RegistryCallbacks` the registrations and the bubbling of events, and `RelayWire` and `Relay` the text
protocol that carries events from the daemon to its clients, under any fragmentation of the stream.
`Registryd` puts them together: a local registry with the relay registered on its root, and clients that
join and drop out between operations.

**Codecs and buffers** (`src/util`). `Crc32`: the table-driven loop against division one bit at a time.
`ShellQuote`: quoting against a reader of shell words after sections 2.2, 2.2.2 and 2.2.3 of the
POSIX.1-2017 Shell Command Language. `Ipv6Text` and `Ipv6`: printing against a reader after section 2.2
of RFC 4291, with the choice of zeros after sections 4.2.2 and 4.2.3 of RFC 5952. `PBuf`: chains of
buffers with a free list.

## What turned out false, and exactly when it holds

- Timers fire in order of deadline only within one turn of the wheel: an update over more than 4096 ticks
  tests every entry of a slot against the new time (`src/event/async_timer.c:215`), so a later deadline in
  an earlier slot fires first. `SchedulerSpec.InOrderIffOneTurn` gives the condition, both ways, over all
  runs; `SchedulerSpec.ReorderingRun` is a run that shows it for any longer update.
- A timer fires in the first update that reaches its deadline only while the deadline fits the `int` it is kept
  in (`src/event/async_timer.c:126`, `src/event/async_wait.c:487`), that is for 2^31 ms, less than 25 days,
  after the clock was started. From then on a stored deadline compares as negative ones do, far ahead, or as one
  long passed. `SchedulerTicks.OnTimeIff` says for every time and delay whether the timer is on time, for all
  sequences of updates. `EventLoops.EventLoop` stores and compares deadlines as the code does, and its theorems
  hold of the deadline as it is compared.
- `num_elements` is not the number of keys: an insert that replaces an entry counts too
  (`src/util/libekr/r_assoc.c:326`). `Assocs.Assoc.Valid` carries the exact value, keys plus replacing
  inserts modulo 2^32, through every operation. `Assocs.CountIsSizeIff` says when the two agree, and
  `Assocs.OverwriteCountsTwice` is a table of one key that counts two.
- The registry is a tree only if no new name lies beneath something that is not a registry, and no
  component of a new name is empty: the name is entered before its ancestors are checked
  (`src/registry/registry_local.c:379-383`). `RegistrySpec.RunKeepsTree` states this as an if and only if
  over whole runs, and `RegistrySpec.SetUnfit` says what such a set leaves behind: an entry whose node, if
  not an array, has been released. Operations that would look at a released node ask their callers not to.
- The child count of the root counts every other name, not its children
  (`src/registry/registry_local.c:281-289`). The two agree exactly when no name has a second component:
  `LocalRegistries.RootCountIff`, and `LocalRegistries.RootCountsGrandchildren` for a table where they differ.
- Remote events equal local ones exactly when no name holds a line terminator or NUL, which legal names
  never do but the unchecked name of a final event may; `RelayWire.RelayIsExactIff`,
  `Registryd.ClientSeesRegistry` for whole runs of the daemon, and `Registryd.FinalSession` for a run in which they
  differ.
- Quoting refuses the empty string, which the shell then does not see as a word;
  `ShellQuote.ShellReadsBack`.
- In `inet_ntop6` the test for a run of seven words (`src/util/util.c:685`) can never hold where it
  stands, because word 6 then lies in the run, and the tests for a full buffer never fail; `Ipv6.Format`.

## How to read the model

Pointers to cells, elements and buffers are numbers into a sequence that stands for memory, with -1 for
null. Ghost fields record what a proof needs and the code does not store: the list a chain stands for, the
place of a cell, the trace so far. Every timer and callback gets a fresh number when it is armed, so two
armings of one function are told apart. Functions of the program are numbers, 0 being null. Where a table
is walked in the order of its hash chains, the model takes any order.

## Model

| member | source | states |
|---|---|---|
| SchedulerSpec.TimerEndsOnce | src/event/async_timer.c:143-256 | In every run a timer fires at most once, is not cancelled after firing, and never fires after being cancelled |
| SchedulerSpec.FiresInFirstAdvanceReachingIt | src/event/async_timer.c:190-230 | A timer that fires was set earlier, and fires in the first update since then whose time reaches its deadline |
| SchedulerSpec.DueTimerIsServed | src/event/async_timer.c:190-256 | A timer whose deadline an update reached has fired or been cancelled before the next update and before the scheduler is next at rest |
| SchedulerSpec.TimerPending | src/event/async_timer.c:108-256 | From its set until it fires or is cancelled, a timer is in the bag under its deadline |
| SchedulerSpec.PendingWasSet | src/event/async_timer.c:108-256 | Whatever is in the bag was set with that deadline and has neither fired nor been cancelled since |
| SchedulerSpec.FiringOrder | src/event/async_timer.c:200-230 | In an update of at most 4096 ticks, timers fire by deadline, and by order of setting among equal deadlines |
| SchedulerSpec.TurnOrderIffOneTurn | src/event/async_timer.c:200-215 | Slot order is deadline order for all deadlines passed if and only if the update spans at most one turn of the wheel |
| SchedulerSpec.InOrderIffOneTurn | src/event/async_timer.c:200-230 | In every run the updates from one time to another fire in order of deadline and setting, if and only if they span at most one turn of the wheel |
| SchedulerSpec.ReorderingRun | src/event/async_timer.c:211-230 | For any longer update, a run in which it fires a later deadline first |
| SchedulerSpec.LongAdvanceReorders | src/event/async_timer.c:211-215 | A run in which deadline 5000 fires before 2000, and must |
| SchedulerSpec.ShortAdvanceFiresNothing | src/event/async_timer.c:258-284 | After an update by less than the next timeout, nothing is due and nothing fires until the next update |
| SchedulerSpec.CancelIsFinal | src/event/async_wait.c:193-256 | No callback armed for a descriptor before a cancel of it ever runs after that cancel, armed, queued or further down the running batch alike |
| SchedulerSpec.RunsOnce | src/event/async_wait.c:460-474 | An armed or scheduled callback runs at most once |
| SchedulerSpec.BatchSemantics | src/event/async_wait.c:453-474 | Between two captures, what has run and what is left make up the captured batch in its order, less only callbacks whose descriptor was cancelled; nothing armed meanwhile is among them |
| SchedulerSpec.UncancelledBatchRunsWhole | src/event/async_wait.c:453-474 | In every run, from a capture to the end of its batch exactly the captured callbacks are run, in order, if nothing is cancelled in between |
| SchedulerSpec.AtWellFormed | src/event/async_wait.c:483-542 | At every point of every run each number is fresh and pending in one place only |
| SchedulerRuns.WheelIsBag | src/event/async_timer.c:76-84 | At rest the wheel holds exactly the timers set and neither fired nor cancelled, each live in the slot of its deadline modulo 4096 with the deadline ahead, and timers_set is their number |
| SchedulerRuns.NothingCalledTwice | src/event/async_wait.c:464-474 | In every run of the event loop, with any callbacks, no arming is called twice, and each call is made with the function and arguments recorded at any earlier time since it was armed |
| SchedulerRuns.FiresAsSet | src/event/async_timer.c:217-225 | A timer that fires is called once, with the function and argument it was set with |
| SchedulerRuns.CancelledIsNeverCalled | src/event/async_timer.c:143-171 | In every run, a timer that is cancelled is never called, neither before nor after |
| SchedulerRuns.HandleIsTimers | src/event/async_timer.c:135-171 | A handle names the timer it was returned for if and only if that timer has neither fired nor been cancelled since |
| SchedulerSessions.Session | src/event/async_timer.c:108-256 | A loop is made, timers are set and one is cancelled by its handle, descriptors armed and cancelled, callbacks run and the clock moved on, under any callbacks: the cancelled timer is never called, the other is called as it was set or cancelled once its time has come |
| SchedulerTicks.OnTimeIff | src/event/async_timer.c:126-215 | Whatever the updates are, a timer is taken by the first one that reaches its deadline, if and only if an int holds the deadline, or it looks overdue but is at most one turn of the wheel ahead, or the 64-bit clock is at its end |
| SchedulerTicks.AheadIff | src/event/async_timer.c:126-215 | The stored deadline compares as one to come if and only if an int holds the deadline or narrowing makes it negative |
| SchedulerQueues.Move | src/port/generic/include/sys/queue.h:485-514 | Removal from one queue and insertion at the end of another change those two lists, and leave every other queue linked as it was |
| SchedulerQueues.CancelOnLinks | src/event/async_timer.c:164-168 | On links, a cancel outside the walk of its slot takes the cell from its slot to the end of the free queue, as the step on sequences does |
| SchedulerQueues.SetOnLinks | src/event/async_timer.c:126-131 | On links, a set takes the first free cell to the end of the slot of its deadline, as the step on sequences does |
| SchedulerRuns.EveryTimerAccounted | src/event/async_timer.c:108-256 | A timer set is pending if and only if it has neither fired nor been cancelled since, and at most one of those ever happens |
| SchedulerRuns.EventWaitRuns | src/event/async_wait.c:383-480 | After an event wait that gets to running callbacks, what has run is the scheduled and then the ready ones, in order, leaving out none but those whose descriptor was cancelled while they ran |
| SchedulerRuns.WaitAndRun | src/event/async_wait.c:356-480 | The same of a wait on the event loop itself, with the count it reports and the status it returns; whatever had been scheduled has been called after it, unless select failed |
| SchedulerRuns.RanMeans | src/event/async_wait.c:460-474 | Of the callbacks taken over, each one whose descriptor no callback cancelled was run, and no other callback was |
| SchedulerRuns.TakesAre | src/event/async_wait.c:432-449 | The callbacks taken are exactly those of armed descriptors that are ready, in ascending order |
| SchedulerFifo.FirstInFirstOut | src/event/async_wait.c:258-275 | In every run, of two callbacks scheduled or reported ready, the later is not run before the earlier was run or its descriptor cancelled |
| SchedulerFifo.StaysInLine | src/event/async_wait.c:258-275 | In every run, a callback scheduled or reported ready waits in line until it is run or its descriptor cancelled |
| SchedulerFifo.RunWasQueued | src/event/async_wait.c:432-474 | In every run, nothing is run that was not scheduled, or reported ready while armed, before |
| SchedulerFifo.RearmedNeverRuns | src/event/async_wait.c:171-185 | In every run, a callback whose descriptor is armed anew before it was reported ready never runs |
| SchedulerScripts.EachAnswered | src/event/async_timer.c:217-225 | Each operation of a callback is answered by its event, in the state it is made in |
| SchedulerScripts.NthCall | src/event/async_timer.c:200-230 | The calls of an update or a batch each have their own script, which is carried out in full before the next call |
| SchedulerCalls.AnswersAre | src/event/async_wait.c:161-275 | The event that answers each operation: the timer at its deadline, the arming with its function and argument, the cancel of its descriptor |
| SchedulerCalls.CallbackCancels | src/event/async_wait.c:241-251 | After a callback that cancels a descriptor, no later call of the batch is of a callback armed for that descriptor before |
| SchedulerCalls.FirstIsCalledFirst | src/event/async_wait.c:460-474 | A batch that is not empty begins with a call of its first callback |
| SchedulerCalls.FirstCancelsLater | src/event/async_wait.c:241-251 | If the first callback of a batch cancels the descriptor of a later one, that one is never called |
| SchedulerSessions.NeighbourCancelled | src/event/async_wait.c:241-251 | Descriptors 4 and 5 are ready and the callback of the first cancels the second: the first is called, the second never |
| SchedulerSessions.ScheduledInOrder | src/event/async_wait.c:383-480 | With nothing armed, two scheduled callbacks are called in order by the next event wait, which reports two |
| SchedulerSessions.LateTimer | src/event/async_timer.c:121-133 | A timer set after the clock has moved on is not called by an update shorter than its delay, and has been called or cancelled after one that reaches it |
| SchedulerState.CellsConserved | src/event/async_wait.c:483-542 | Every allocated cell is in exactly one of a slot, the queue, the running batch, the descriptor table or the free queue, and timers_set is the number of cells in the wheel |
| SchedulerSteps.SetKeepsInv | src/event/async_timer.c:126-133 | Setting a timer, also from inside a callback, keeps the memory invariant and its link to the bag |
| SchedulerSteps.UnsetKeepsInv | src/event/async_timer.c:150-168 | Cancelling keeps them too, by a tombstone in the slot being walked and by unlinking anywhere else |
| SchedulerSteps.MarkingRemovesKey | src/event/async_wait.c:241-251 | Marking the first queued match removes every live callback for the descriptor from the rest of the batch |
| SchedulerSteps.CancelAnswers | src/event/async_wait.c:217-251 | Dropping the armed callback and marking the queued one together are the one cancel of the abstract machine |
| SchedulerSteps.WaitAnswers | src/event/async_wait.c:171-185 | Re-arming destroys the callback armed before and is one wait of the abstract machine |
| SchedulerWalk.NextInWalkMayFire | src/event/async_timer.c:206-227 | The next live due cell met by the walk is the timer that no other due timer precedes |
| SchedulerWalk.CallbackKeepsCell | src/event/async_timer.c:217-226 | Whatever a callback does, the cell being served stays where it is, and the slot only gains entries behind it that are not due |
| SchedulerWalk.ServedGoesOn | src/event/async_timer.c:208-229 | The saved next pointer is still the right place to go on after a callback has changed the queue |
| SchedulerWalk.SlotIsSwept | src/event/async_timer.c:200-230 | Once nothing due is left in a slot, no timer whose turn was up to that slot is due |
| SchedulerWalk.AllSwept | src/event/async_timer.c:197-251 | Once every slot up to the new time has been walked, nothing is due, for jumps of any length |
| SchedulerWalk.SweptLeavesNone | src/event/async_timer.c:232-250 | After the second pass no tombstone is left anywhere |
| SchedulerBatch.BeginGoesIdle | src/event/async_wait.c:453-463 | Taking over the queue as the working queue keeps every cell in place and at most one callback per descriptor |
| EventLoops.EventLoop.constructor | src/event/async_timer.c:86-101 | The initial state is new memory, satisfies the invariant and stands for the empty machine |
| EventLoops.EventLoop.CreateCb | src/event/async_wait.c:483-521 | A cell comes from the head of the free queue or from new memory, and is filled in |
| EventLoops.EventLoop.DestroyCb | src/event/async_wait.c:523-542 | A cell goes to the tail of the free queue |
| EventLoops.EventLoop.TimerSet | src/event/async_timer.c:108-141 | Adds one timer at the current tick plus the delay, at least one tick, in plain numbers while an int holds that and narrowed and widened again beyond; the handle is recorded as its; a callback may call it |
| EventLoops.EventLoop.TimerCancel | src/event/async_timer.c:143-171 | Cancels the timer behind a live handle; a null handle, or a timer already cancelled or being fired, is left alone; what handles and armings stand for is remembered |
| EventLoops.EventLoop.ServeDue | src/event/async_timer.c:208-229 | A due entry is taken out of the slot exactly once, called back unless cancelled, and the walk continues at its old successor; the number of due entries ahead goes down |
| EventLoops.EventLoop.WalkSlot | src/event/async_timer.c:206-230 | The first pass over a slot ends though callbacks append to it, leaving nothing due in it |
| EventLoops.EventLoop.SweepSlot | src/event/async_timer.c:232-250 | The second pass releases what was cancelled while the slot was walked |
| EventLoops.EventLoop.AdvanceTo | src/event/async_timer.c:197-253 | An advance of any length ends with the scheduler at rest: nothing due, no tombstones, every event accounted for |
| EventLoops.EventLoop.UpdateTime | src/event/async_timer.c:173-256 | The first call only starts the clock, a clock gone back changes nothing, otherwise the advance is to the elapsed milliseconds |
| EventLoops.EventLoop.NextTimeout | src/event/async_timer.c:259-284 | The shortest delay to a pending deadline, as an int has it; none if and only if no delay is below INT_MAX; a callback may call it |
| EventLoops.EventLoop.Perform | src/event/async_wait.c:161-275 | Carries out one operation of a callback, with the event and the recorded call each calls for; an operation that may not be made changes nothing |
| EventLoops.EventLoop.RunScript | src/event/async_timer.c:217-225 | Carries out the operations of a callback one after the other, each answered |
| EventLoops.EventLoop.Schedule | src/event/async_wait.c:258-275 | Queues one callback for a later event wait |
| EventLoops.EventLoop.Wait | src/event/async_wait.c:161-191 | Arms a descriptor in place of what was armed before, or refuses a descriptor or kind out of range |
| EventLoops.EventLoop.Cancel | src/event/async_wait.c:217-256 | One cancel of the abstract machine, or a refusal that changes nothing |
| EventLoops.EventLoop.FindQueued | src/event/async_wait.c:241-248 | Finds the first callback for the descriptor behind the one being run |
| EventLoops.EventLoop.MaxFd | src/event/async_wait.c:383-386 | The highest armed descriptor, or -1 exactly if none is armed |
| EventLoops.EventLoop.Capture | src/event/async_wait.c:432-449 | Queues the armed callbacks of all ready descriptors in ascending order, read before write |
| EventLoops.EventLoop.RunBatch | src/event/async_wait.c:460-476 | Runs the working queue to its end and reports its length |
| EventLoops.EventLoop.EventWait | src/event/async_wait.c:356-480 | Returns end-of-data exactly if nothing is armed or queued, would-block exactly on a time-out with something armed, nothing queued and a time limit other than zero, an error exactly if something is armed and select failed, changing nothing; otherwise captures scheduled and then ready callbacks, runs that batch and reports its length |
| Timevals.Diff | src/util/libekr/r_time.c:86-113 | The difference is normalised and exact, and refused exactly when the first time lies before the second |
| Timevals.ToInt | src/util/libekr/r_time.c:155-165 | The time in microseconds, without wrap-around below 2^43 seconds |
| Timevals.Cmp | src/util/libekr/r_time.c:139-152 | Orders instants |
| TailQueues.TailQueue.InsertHead | src/port/generic/include/sys/queue.h:473-483 | The element is first in the queue, the others follow in order, and other queues keep their links |
| TailQueues.TailQueue.InsertTail | src/port/generic/include/sys/queue.h:485-492 | The element is last in the queue |
| TailQueues.TailQueue.InsertBefore | src/port/generic/include/sys/queue.h:464-471 | The element stands just before the one named |
| TailQueues.TailQueue.InsertAfter | src/port/generic/include/sys/queue.h:450-462 | The element stands just behind the one named |
| TailQueues.TailQueue.Remove | src/port/generic/include/sys/queue.h:502-514 | The queue is the old one without the element |
| TailQueues.TailQueue.CopyOut | src/event/async_wait.c:453-458 | After the copy of the head, the original is empty and the copy still leads through all the elements in order |
| TailQueues.Drain | src/event/async_wait.c:460-474 | A copied queue is walked to its end, each element met once and put behind another queue |
| TailQueues.ForwardStays | src/event/async_wait.c:460-474 | What is done meanwhile to queues of other elements leaves the rest of the copied queue to be followed |
| TailQueues.SplicedQueue | src/port/generic/include/sys/queue.h:450-492 | Linking an element in between its neighbours yields a queue linked both ways, wherever it goes |
| TailQueues.BridgedQueue | src/port/generic/include/sys/queue.h:502-514 | Linking an element's neighbours to each other yields the queue without it |
| TailQueues.OtherQueueStays | src/port/generic/include/sys/queue.h:386-514 | An operation on one queue leaves a queue with other elements as it was |
| Assocs.Assoc.constructor | src/util/libekr/r_assoc.c:122-148 | An empty table is well formed and stands for the empty map |
| Assocs.Assoc.FetchBucket | src/util/libekr/r_assoc.c:241-260 | Finds the element of a key, if and only if the key is in the map |
| Assocs.Assoc.Fetch | src/util/libekr/r_assoc.c:262-279 | Answers as the map does |
| Assocs.Assoc.Insert | src/util/libekr/r_assoc.c:281-335 | Adds or, if asked to, overwrites an entry; refuses a present key otherwise; the overwritten data is destroyed; the chains stay well formed and the counter exact |
| Assocs.Assoc.Overwrite | src/util/libekr/r_assoc.c:315-323 | The old data of the key is destroyed and the new data takes its place |
| Assocs.Assoc.AddHead | src/util/libekr/r_assoc.c:300-306 | A new element becomes the head of its chain |
| Assocs.Assoc.Delete | src/util/libekr/r_assoc.c:337-373 | Removes the entry and destroys its data, or reports that there is none |
| Assocs.Assoc.TakeOut | src/util/libekr/r_assoc.c:350-371 | Unhooks an element, destroys its data and counts it out |
| Assocs.Assoc.Unhook | src/util/libekr/r_assoc.c:350-360 | Both neighbours, or the chain head, point past the element |
| Assocs.CountIsSizeIff | src/util/libekr/r_assoc.c:326 | The counter is the number of keys if and only if that fits 32 bits and the overwriting inserts make whole turns of them, as none do |
| Assocs.OverwriteCountsTwice | src/util/libekr/r_assoc.c:299-323 | A table of one key, inserted and then overwritten, counts two |
| AssocState.InsertKeepsOk | src/util/libekr/r_assoc.c:300-306 | With a new head, every chain is still linked both ways, keyed by its hash without duplicates, and agrees with the map |
| AssocState.UnlinkKeepsOk | src/util/libekr/r_assoc.c:350-360 | So it is without any one element |
| AssocState.ReplaceKeepsOk | src/util/libekr/r_assoc.c:313-321 | So it is with other data in one element |
| AssocState.ChainsApart | src/util/libekr/r_assoc.c:241-260 | Different chains share no element |
| AssocWalk.FlatEnumerates | src/util/libekr/r_assoc.c:413-471 | The chains one after the other name each entry of the map exactly once |
| AssocWalk.StepInChain | src/util/libekr/r_assoc.c:449-458 | The element linked behind the one returned is the next of the walk |
| AssocWalk.UnlinkKeepsWalk | src/util/libekr/r_assoc.c:478-502 | Deleting the element just returned leaves the rest of the walk as it was |
| AssocIteration.AssocIterator.constructor | src/util/libekr/r_assoc.c:413-435 | A new iterator has the whole walk before it |
| AssocIteration.AssocIterator.Iter | src/util/libekr/r_assoc.c:437-476 | Returns the first element of what is left and steps on, or reports the end |
| AssocIteration.AssocIterator.StepOn | src/util/libekr/r_assoc.c:452-473 | The next element is the one linked behind in the chain, or the first of the next occupied chain |
| AssocIteration.AssocIterator.IterDelete | src/util/libekr/r_assoc.c:478-502 | Deletes the element returned last; what is left to be returned does not change |
| AssocIteration.IterateAll | src/util/libekr/r_assoc.c:413-502 | A full run returns every entry exactly once, whichever of the returned entries are deleted on the way, and leaves the map without those |
| AssocCopy.CopyChain | src/util/libekr/r_assoc.c:189-239 | A chain is rebuilt with the same keys in the same order and copied data |
| AssocCopy.Copy | src/util/libekr/r_assoc.c:375-404 | The copy is a well formed table of its own that stands for the map with copied data, with the chains and the counter of the old one |
| RegistryNames.CheckName | src/registry/registry_local.c:776-811 | A name is legal if it fits 128 characters with its terminator, does not begin or end with a dot, and holds only printing characters other than blanks and slashes |
| RegistryNames.AncestorsValid | src/registry/registry_local.c:776-811 | A legal name has only legal ancestors if and only if no component of it is empty |
| RegistrySpec.InsertOutcome | src/registry/registry_local.c:367-401 | An insert succeeds if and only if the name fits beneath registries; it then adds just the missing ancestors, outermost first, and otherwise raises nothing |
| RegistrySpec.MissingAreAncestors | src/registry/registry_local.c:748-768 | The ancestors made are exactly those that were absent, each after its own ancestors |
| RegistrySpec.SetAbsent | src/registry/registry_local.c:608-684 | Setting an absent name that fits raises add for each missing ancestor, outermost first, and then for the name, and changes nothing else |
| RegistrySpec.SetPresent | src/registry/registry_local.c:403-432 | A present name takes another value of its type with one change event, keeps an equal one without an event, and refuses another type |
| RegistrySpec.IllegalIsRefused | src/registry/registry_local.c:333-365 | An illegal name is refused without a change |
| RegistrySpec.SetThenGet | src/registry/registry_local.c:608-746 | After a successful set the name reads back as set and every other entry is unchanged |
| RegistrySpec.SetUnfit | src/registry/registry_local.c:367-401 | A set of a new name that does not fit fails without an event but leaves the entry, whose node has been released unless it is an array |
| RegistrySpec.SetTellsLegalNames | src/registry/registry_local.c:367-432 | Only legal names are ever told of a set, those of the ancestors included |
| RegistrySpec.SetKeepsTree | src/registry/registry_local.c:608-768 | A set keeps the tree if and only if the name is illegal, present or fits |
| RegistrySpec.DeleteOutcome | src/registry/registry_local.c:1013-1041 | A delete removes exactly the name and its descendants, raises delete, keeps the tree, and puts the root back with an add |
| RegistrySpec.SetThenDelete | src/registry/registry_local.c:1013-1041 | Deleting a name just set leaves the old table and the ancestors made for it |
| RegistrySpec.StepKeepsTree | src/registry/registry_local.c:367-401 | Any operation keeps the tree if and only if it does not enter a name that does not fit |
| RegistrySpec.RunKeepsTree | src/registry/registry_local.c:176-1041 | From the fresh registry, every state of a run is a tree if and only if every operation fits where it is made |
| LocalRegistries.LocalRegistry.constructor | src/registry/registry_local.c:863-883 | The root is there from the start |
| LocalRegistries.LocalRegistry.FetchNode | src/registry/registry_local.c:333-365 | Finds the node, or says that the name is illegal, absent or of another type |
| LocalRegistries.LocalRegistry.GetArray | src/registry/registry_local.c:584-606 | Gives the array's bytes if the buffer holds them |
| LocalRegistries.LocalRegistry.InsertNode | src/registry/registry_local.c:367-401 | Does to the table, and raises, what the specification says, in place and through the recursion over parents |
| LocalRegistries.LocalRegistry.Set | src/registry/registry_local.c:608-684 | A present name: one change event if the value differs, none if it does not, failure for another type; an illegal name: refused; absent names as the specification says |
| LocalRegistries.LocalRegistry.SetArray | src/registry/registry_local.c:686-746 | The same for arrays, whose node a failed insert does not release |
| LocalRegistries.LocalRegistry.Delete | src/registry/registry_local.c:1013-1041 | The walk with deletes on the way removes exactly what lies beneath the name |
| LocalRegistries.LocalRegistry.Fin | src/registry/registry_local.c:1101-1112 | Raises the final event on any name, checked or not |
| LocalRegistries.ChangeIsTold | src/registry/registry_local.c:403-432 | A value set, a callback for changes registered, another value set twice: the callback is called once, for the change |
| LocalRegistries.LocalRegistry.GetChildCount | src/registry/registry_local.c:1043-1069 | Fails unless the name is there as a registry, else counts |
| LocalRegistries.LocalRegistry.GetChildren | src/registry/registry_local.c:1071-1099 | Succeeds if and only if the name is legal and it has no children or fewer than there is room for, and lists each child once, sorted without regard to case |
| LocalRegistries.LocalRegistry.GetChildRegistry | src/registry/registry.c:218-249 | Succeeds if and only if the parent is there as a registry and the index is below the true number of children, and gives the child at that place in the order |
| LocalRegistries.CountCoversChildren | src/registry/registry_local.c:274-292 | The count is the number of children for any name but the root, and all the other names for the root |
| LocalRegistries.RootCountIff | src/registry/registry_local.c:274-292 | The root counts its children if and only if no name has a second component |
| LocalRegistries.RootCountsGrandchildren | src/registry/registry_local.c:274-292 | A tree whose root has one child and counts two |
| RegistryChildren.MatchIsBeneath | src/registry/registry_local.c:207-217 | The test made while iterating selects the name and its descendants |
| RegistryChildren.SearchFindsChildren | src/registry/registry_local.c:244-272 | The search selects a legal name if and only if it is the parent and one more component |
| RegistryChildren.CountTakesChildren | src/registry/registry_local.c:274-292 | What the counting test selects, for the root and for other names |
| RegistryChildren.AtMostAt | src/registry/registry_local.c:1083-1097 | Of two names that agree case aside up to some place, the one that ends there comes first, else the one with the lesser character |
| RegistryChildren.LowerIs | src/registry/registry_local.c:1083-1097 | Capital letters count as the small ones, 32 further on, and no other characters are taken for one another |
| RegistryPaths.MakeRegistry | src/registry/registry.c:558-598 | Succeeds if and only if the name fits in 128 bytes and the component is not empty and has no dot at its ends |
| RegistryPaths.MadeIsChild | src/registry/registry.c:558-598 | The name made is legal and a child of the parent, and spells the component if and only if that had legal characters only |
| RegistryPaths.MakeChildRegistry | src/registry/registry.c:491-521 | Cuts the descendant at the right dot, never past the buffer, or refuses |
| RegistryPaths.CutIs | src/registry/registry.c:502-514 | The cut is before a dot with the number of dots asked for kept, or at the end if there are no more |
| RegistryPaths.MakeThenCut | src/registry/registry.c:491-598 | Cutting one generation below the parent, from a made name or anything beneath it, gives the made name back |
| RegistryCallbacks.CallbackTable.RegisterOne | src/registry/registrycb.c:117-188 | Adds a registration or replaces its argument, or refuses an illegal name |
| RegistryCallbacks.CallbackTable.UnregisterOne | src/registry/registrycb.c:190-235 | Takes a registration out, and the name's table with its last one |
| RegistryCallbacks.CallbackTable.Register | src/registry/registrycb.c:396-416 | Registers for exactly the actions in the mask, and refuses unknown bits only after that |
| RegistryCallbacks.CallbackTable.Unregister | src/registry/registrycb.c:419-439 | Unregisters from exactly the actions in the mask |
| RegistryCallbacks.CallbackTable.RaiseUpwards | src/registry/registrycb.c:282-357 | Calls each callback for the action on the name and on each ancestor up to the root exactly once, with the original name, deepest first |
| RegistryCallbacks.CallbackTable.RaiseEvent | src/registry/registrycb.c:361-391 | Appends one delivery with exactly those calls to the history, whether or not there are registrations |
| RegistryCallbacks.MaskBits | src/registry/registry.h:144-147 | Bit 0 asks for adds, bit 1 for changes, bit 2 for deletes, bit 6 for the final event |
| RegistryCallbacks.CalledIfAsked | src/registry/registrycb.c:395-417 | After a registration an event on the name or beneath it calls the function once, with its argument, if the bit of the action is in the mask, and otherwise exactly if it was registered before |
| RegistryCallbacks.OthersAreKept | src/registry/registrycb.c:395-417 | A registration leaves those for other names, other functions and actions not in the mask as they were |
| RegistryCallbacks.BubbledUp | src/registry/registrycb.c:342-351 | The calls of one level before those of the levels above are again in order, complete and without repetition |
| RelayWire.MessagesAre | src/registry/registryd.c:352-407 | Each message as it is printed: the action, a blank, the name and two terminators, or a lone newline |
| RelayWire.LinesAre | src/registry/regrpc_client_cb.c:221-259 | Which lines tell of which event: the action in capitals or small letters, a blank, and the name |
| RelayWire.ReadOn | src/registry/regrpc_client_cb.c:194-209 | Reading on from what was left over is reading the whole stream |
| RelayWire.RestIsOpen | src/registry/regrpc_client_cb.c:194-209 | No complete line is ever left over |
| RelayWire.OneEvent | src/registry/registryd.c:352-366 | A printed event reads back as that event |
| RelayWire.StreamReadsBack | src/registry/registryd.c:352-407 | The whole stream, keep-alives included, reads back as the events sent, in order |
| RelayWire.PartReadsPrefix | src/registry/regrpc_client_cb.c:172-218 | Whatever part of the stream has come in, the events read are the first of those sent |
| RelayWire.RelayIsExactIff | src/registry/regrpc_client_cb.c:221-259 | The events read are the events sent if and only if no name holds a line terminator or NUL |
| Relay.Receiver.Receive | src/registry/regrpc_client_cb.c:172-218 | However the stream is cut into pieces, the events raised and the bytes left are those of the stream so far |
| Relay.Daemon.SendToClients | src/registry/registryd.c:373-392 | Each client whose socket takes writes gets the message and stays in order; the others leave the list |
| Relay.Daemon.SendEvent | src/registry/registryd.c:352-371 | An event reaches every live client |
| Relay.Daemon.Register | src/registry/registryd.c:265-349 | Dead clients are dropped, and the new one joins at the end if it could be connected to |
| Relay.LivingInOrder | src/registry/registryd.c:373-392 | Dropping the dead keeps the other clients in their order |
| Relay.ClientFollowsDaemon | src/registry/regrpc_client_cb.c:172-259 | A client that has received part of what was written to it has raised the first of the daemon's events, and all of them once it has received everything |
| Relay.RelayHearsAll | src/registry/registryd.c:178-184 | From the moment it is registered on the root for every action, the relay is told of every event raised, once and in order |
| Relay.RemoteIsLocal | src/registry/registryd.c:178-407 | The events read at a client that joined at any point are the first of those raised in the daemon's registry since, and in the end all of them |
| Registryd.Server.constructor | src/registry/registryd.c:167-184 | The root is added before the relay is registered, and no client has joined |
| Registryd.Server.Forward | src/registry/registryd.c:352-392 | The relay's calls bring every living client up to the events of the registry |
| Registryd.Server.Set | src/registry/registryd.c:178-392 | A set leaves every living client told of just the events raised since it joined |
| Registryd.Server.SetArray | src/registry/registryd.c:178-392 | So does a set of an array |
| Registryd.Server.Delete | src/registry/registryd.c:178-392 | So does a delete |
| Registryd.Server.Fin | src/registry/registryd.c:178-392 | So does a final event |
| Registryd.Server.Join | src/registry/registryd.c:265-349 | A client joins with nothing told, the others having been sent a keep-alive |
| Registryd.ClientSeesRegistry | src/registry/registryd.c:178-407 | In every run of the daemon, a client, still listed or dropped, has raised the first of the events raised in the registry since it joined, and all of them once its stream has come in if it is listed, if the names of final events hold no line terminator |
| Registryd.Session | src/registry/registryd.c:167-392 | A daemon on which a name is set, a client joins and another name is set: the client raises exactly the events of the second set |
| Registryd.FinalSession | src/registry/registryd.c:167-407 | A daemon on which a name with a newline is finalised: the client raises something else |
| Crc32.PolyIsAutodin | src/util/libekr/r_crc32.c:75-78 | The reflected constant is the AUTODIN II polynomial |
| Crc32.TableIsEightSteps | src/util/libekr/r_crc32.c:79-144 | Each of the 256 entries is what eight division steps make of its index |
| Crc32.LookUpIsFeed | src/util/libekr/r_crc32.c:73 | One table look-up is eight division steps |
| Crc32.RegisterIsDivision | src/util/libekr/r_crc32.c:152-174 | Byte by byte, the register is the remainder of dividing the message bit by bit, low bit first |
| Crc32.Crc32 | src/util/libekr/r_crc32.c:152-174 | The checksum is the complement of that remainder |
| Crc32.CheckValue | src/util/libekr/r_crc32.c:75-174 | The message 123456789 has the published checksum CBF43926 |
| Crc32.MessageWithChecksum | src/util/libekr/r_crc32.c:54-64 | Any message followed by its checksum, low byte first, leaves 0xDEBB20E3 |
| Crc32.FourByteChangeShows | src/util/libekr/r_crc32.c:152-174 | Messages that differ only within four bytes in a row have different checksums |
| ShellQuote.ShellQuoteString | src/util/escape.c:67-114 | No write leaves the buffer of len + 4 * needs + 3 bytes, which then holds the quoted string; refused if and only if nothing needs quoting |
| ShellQuote.QuotedIs | src/util/escape.c:88-112 | The text stands between single quotes; each quote of its own is closed off and put between double quotes |
| ShellQuote.ShellReadsBack | src/util/escape.c:48-114 | The shell reads what it is given as exactly one word, the original string, for every string but the empty one |
| Ipv6Text.TextReadsBack | src/util/util.c:663-717 | Any address, printed with any run of at least two zero words left out, reads back to the same eight words |
| Ipv6Text.TextIs | src/util/util.c:663-717 | The words before the run left out and those behind it stand around two colons; the last two are four numbers with dots if all of the first six words are left out, or the first five and the sixth is ffff |
| Ipv6Text.JoinIs | src/util/util.c:674-694 | Words are printed one by one with a colon between each two |
| Ipv6Text.NumberIs | src/util/util.c:690 | Numbers are printed without leading zeros, hexadecimal digits as small letters |
| Ipv6Text.Unspecified | src/util/util.c:663-717 | The unspecified address is two colons |
| Ipv6Text.Loopback | src/util/util.c:663-717 | The loopback address is two colons and a one |
| Ipv6Text.TwoRuns | src/util/util.c:663-717 | Of two runs only the one chosen is left out |
| Ipv6Text.Mapped | src/util/util.c:681-689 | An IPv4-mapped address ends in its four numbers with dots |
| Ipv6.ChosenIs | src/util/util.c:638-661 | The chosen run has at least two words, all zero; there is none exactly if no two adjacent words are zero; an address is printed with dots exactly if its first five words are zero and the sixth is ffff, or zero with the seventh not |
| Ipv6.ChosenIsLongest | src/util/util.c:638-661 | No run of zeros is longer than the chosen one, and none as long begins before it |
| Ipv6.FindBest | src/util/util.c:638-661 | Chooses the first of the longest runs of zero words, and none if no two zero words are adjacent |
| Ipv6.ChosenOnce | src/util/util.c:638-661 | Only one run meets that description |
| Ipv6.LoadWords | src/util/util.c:635-637 | The bytes by twos are the words |
| Ipv6.Format | src/util/util.c:663-706 | The text is put together word by word as specified, and the buffer of 46 bytes is never too small |
| Ipv6.InetNtop4 | src/util/util.c:590-605 | Four numbers with dots, or nothing if they and the terminator do not fit |
| Ipv6.InetNtop6 | src/util/util.c:613-717 | The text with the chosen run left out, which reads back to the words of the address; nothing if and only if it and its terminator exceed the size, never for 46 bytes |
| PBufs.Context.Alloc | src/util/p_buf.c:90-121 | An empty buffer, the first free one or a new one, with all others unchanged |
| PBufs.Context.InsertTail | src/port/generic/include/sys/queue.h:277-281 | The buffer is last in the chain and the free list is untouched |
| PBufs.Context.Fill | src/util/p_buf.c:170-175 | As many bytes as fit are appended to the chain's contents |
| PBufs.Context.WriteToChain | src/util/p_buf.c:151-184 | Ends, also when the last buffer is full; the contents are the old ones followed by all the bytes, no buffer exceeds its size, buffers outside the chain and the free list are unchanged, new buffers come from the free list or new memory, and the free list only shrinks |
| PBufs.WriteBeside | src/util/p_buf.c:151-184 | What is written to one chain of a context leaves another chain and its contents as they were |
| PBufs.Context.FreeChain | src/util/p_buf.c:132-148 | All the chain's buffers are at the end of the free list, in order, though the links are rewritten on the way |
| PBufs.ContentsAre | src/util/p_buf.c:151-184 | The contents of a chain are, buffer after buffer, the bytes from its read offset on |
| PBufs.LastFilled | src/util/p_buf.c:170-175 | Writing behind the data of the last buffer appends to the chain |

## Left out

- Sockets, `select` itself, signals, RPC stubs and logging: readiness is an arbitrary set of descriptors, writes are whole, and whether a client's socket still takes writes is a parameter.
- The epoll and Windows builds of the event loop, which the project's build files do not select.
- Memory exhaustion, freeing of whole tables and contexts, and the resetting of a freed chain's head, which is its caller's.
- Callbacks that re-enter `NR_async_timer_update_time` or `NR_async_event_wait2`, or that change the registry or the registrations while an event is bubbling. Operations of a callback script on a handle that is no longer live or with a null function are skipped: no correct program makes them.
- EventLoops.EventLoop.TimerSet: not modelled for a deadline that compares as passed once it is stored, by `SchedulerTicks.AheadIff` one from 2^32 on whose lower half an int holds, or one that lies in the past because the delay is negative; a callback that sets such timers in the slot being walked may keep the walk from ending. `SchedulerTicks.OnTimeIff` covers them when they are set between updates.
- The clock: seconds are not zero and below 2^43, so that microseconds fit 64 bits.
- The queues of the scheduler are sequences of cell numbers in `EventLoop`; that the link fields represent such sequences is proved in `Tailq`, also across the copy of the queue head, and `SchedulerQueues` carries setting a timer in a recycled cell and cancelling one over to links.
- The registry's table is a map, not the hash table of `Assoc`, which is proved to be one apart.
- Cells, elements and buffers are records in a sequence that stands for memory; reuse of the addresses of freed hash table elements is not modelled, reuse of callback cells and buffers is.
- The hash functions of the hash table: any function into the table's range stands for them.
- Doubles in the registry, the printed form of values, type names, and the dispatch between local and remote registries; string and byte values are both sequences of bytes.
- LocalRegistries.LocalRegistry.GetChildRegistry: when names differ only in case their order among themselves is not fixed, so the index of one of them is not either.
- Relay.Daemon.Register: how the connection to the client is made; whether it could be is a parameter.
- Registryd.Server.Forward: the relay's calls are made when an operation on the registry has returned, in the order they were logged, not each in the middle of the operation.
- c_buf, which is not part of this model: a queue of received bytes, always large enough, stands for it.
- Crc32.Crc32: the second register that the loop keeps is computed but, as in r_crc32.c, not used.
- Bit fields, plain lists, argument parsing, hexadecimal and byte order helpers, statistics, plugins and the Apache module, whose properties are easy or not worth stating.
