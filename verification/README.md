# A verified model of the Textus threading, event and mover code

Textus is a C++ threading and event framework with a gossip mail protocol, the mover, on top.
This project restates its hardest parts in Dafny 4.11 and proves what they are for. Code that
works step by step is imperative here too: classes with the program's fields, loops with their
invariants, and contracts that tie the new state to a function of the old one. What threads or
machines do to each other is a state machine instead: an event for each section run under a
lock, or for each message delivered, and theorems about every run. Verify everything with
`dafny verify dfyconfig.toml`.

## What is modelled

**Threads.** `Monitor` is the re-entrant monitor that every object carries: one owner, a nesting
count, and a wait that gives back exactly the depth it was called at. `RefCount` is the strong and
weak reference counting with its check before deletion. `TimerList` is the sorted list of timers
as a class; `TimerHandshake` is the two-lock protocol by which callers wake the timer thread.
`Barrier` runs a callback on all threads while threads start and exit. `FileBackedNumber` keeps a
number as text that is overwritten in place; `OneTimeUse` hands out unique numbers in chunks from
it, across threads, processes and restarts. `MonitorHistory`, `RefCountHistory`, `TimerHistory`,
`BarrierHistory` and `OneTimeHistory` tell the states of these machines from the events that have
happened and say what can still happen; `History` holds what most of them share.

**Gossip.** `GossipSide` is one side of a mover session as a class and as a function;
`GossipSession` connects two sides by unordered delivery and proves that they always come to rest;
`GossipHistory` says what each has sent by then, from the messages that reached it.
`IHaveSelection` chooses, at random but with exact sizes, what to ask a peer for.

**Formats.** `Wire` has big-endian numbers and the message checksum, `Framing` the padded frames
and the reader that cuts a stream into frames whatever pieces it arrives in; `DamagedStream` is
about a frame that is not what was sent. `Onion` wraps a message hop by hop and unwraps it, and
`OnionLayers` says what the layers are. `ConfigText` is the configuration printer and the character
machine that parses; `ConfigRoundTrip` says exactly which data survives, `ConfigLines` what other
lines mean and which are errors; `TextLines` and
`ConfigFile` are the line iterator, the writer and the reader as they work on files.
`DnsQuestion` sizes, writes and skips the question of a DNS request, section 4.1.2 of RFC 1035.

**Indexes.** `LruCache` is the cache with its list of uses, `HashTree` the directory tree of the
hash store, `FlatStore` the map that it amounts to, `SeenCache` the cache in front of it,
`LeakyBucket` the rate limiter. `Split`, `Distinct` and `Common` hold what several modules need.

## Where the code differs from what one would expect

The model follows the code. These differences are stated and proved as they are, except the one
about an unset rate, which the model does not reach.

- The reader slices the payload of a frame as long as the frame including its pad, so up to eight
  bytes buffered behind the frame come along (textus/file/ProtoBufReader.cc:225).
  `Framing.PayloadIsExact` says exactly when they do not.
- Type bytes are read as signed characters: a low byte of 128 or more changes the bytes above it.
  `Framing.TypeSurvives` gives the exact condition.
- A configuration map survives printing and parsing if and only if its keys and strings are not
  empty and its lists are non-empty lists of non-empty strings. Every other map is refused.
- `FileBackedNumber::set` to a number with fewer digits leaves old digits behind it.
  `FileBackedNumber.OverwriteReadsBack` gives the exact condition; growing counters always meet it.
- Without the file lock, which is off by default and which nothing in the repository turns on,
  any two processes can be given the same number.
- No rate is ever set on the bucket that decides whether to double a chunk, so its first use in a
  later second than its construction divides by a number that was never set. Where that is not
  zero the bucket, which has no limit either, overflows at every use, so every reservation doubles.
  The 27th reservation of a process turns the reserve negative and moves the counter back, and
  from the 28th on nothing is reserved and numbers repeat. `OneTimeUse.UniqueExactly` gives the
  exact condition for uniqueness.
- A thread on its way out holds its own monitor while it waits for the lock of the thread list; a
  scan that holds that lock and still has to check or signal the thread waits for ever.
- A thread that calls `exit` inside a callback never finishes the callback, so the call that queued
  it never returns; and because it holds its task list meanwhile, a scan that has just found it not
  done waits for it for ever. `Barrier.ScanCanEndExactly` and `Barrier.CallCanReturnExactly` give
  the exact conditions.
- A thread that returns from its start routine clears its entry before it drains its tasks, so a
  callback already pending then goes through a null thread. `Barrier.CrashExactly` gives the
  exact condition.
- The loop in `deref` is given up after a thousand turns if a weak reference outlasts them.
- After one HELLO too many, or a malformed list before its own one, a side closes and then goes
  through the mover it no longer has; the model marks that and goes on without it.
- `insert` into a full cache evicts even when the key is already there, so any full cache can
  forget the key used last; `operator[]` does not.
- A leaky bucket used again before a whole unit has leaked never leaks at all.
- For a host name such as `a..b` the DNS packet is sized for both labels, but only the first is
  written.
- A blank line in an I-HAVE list is an item, but joining drops empty strings at the front, and the
  order puts it there: the empty hash is never asked for, and asking for it alone sends nothing.
- `selectRandom` asked for more members than there are adds the empty string.

## Model

| member | source | states |
|---|---|---|
| TimerList.TimerQueue.AddTimer | textus/event/TimerQueue.h:74-97 | the list gains the timer at its place, and the sleeper is woken exactly when the earliest end time changes |
| TimerList.TimerQueue.RemoveTimer | textus/event/TimerQueue.h:99-105 | the list loses the timer and nothing else |
| TimerList.TimerQueue.ProcessTimeOuts | textus/event/TimerQueue.h:152-174 | exactly the timers that end before now are taken, in order; taken and kept together are the old list |
| TimerList.TimerQueue.NextDeadline | textus/event/TimerQueue.h:125-136 | the deadline is that of the first timer, so no queued timer ends before it |
| TimerList.InsertPlace | textus/event/TimerQueue.h:77-96 | a new timer goes behind all that end no later and before all that end later |
| TimerList.InsertKeepsSorted | textus/event/TimerQueue.h:77-96 | adding keeps the list sorted by end time |
| TimerList.InsertLosesNothing | textus/event/TimerQueue.h:77-96 | adding loses and duplicates no timer |
| TimerList.InsertIsFifo | textus/event/TimerQueue.h:90-95 | among equal end times the order is first in, first out |
| TimerList.RemoveKeepsSorted | textus/base/ReferenceList.h:185-199 | removing keeps the list sorted |
| TimerList.RemoveIsStable | textus/base/ReferenceList.h:185-199 | removing leaves the order of the others alone |
| TimerList.RemoveMembers | textus/base/ReferenceList.h:185-199 | removing takes out every occurrence of the timer and no other timer |
| TimerHandshake.SleepIsCovered | textus/event/TimerQueue.h:125-150 | in every reachable state an unsignalled sleep covers every queued timer and no exit request is open, or a caller is still bound to signal |
| TimerHandshake.NoMissedTimer | textus/event/TimerQueue.h:119-150 | with no caller inside a call, an unsignalled sleeper's deadline is at or before every queued end time and no exit is requested |
| TimerHandshake.WakeIsNotLost | textus/event/TimerQueue.h:107-124 | from a wake until the flag is next cleared the timer thread is not in an unsignalled sleep |
| TimerHandshake.QueueLockIsExclusive | textus/event/TimerQueue.h:74-105 | the queue lock has one holder, caller or timer thread |
| TimerHandshake.RunKeepsInv | textus/event/TimerQueue.h:177-203 | the invariant of the handshake holds after every interleaving |
| TimerHistory.ListedExactly | textus/event/TimerQueue.h:74-174 | on every run a timer is in the list if and only if it was added and since then neither dropped nor met by a processing of the queue after its end |
| TimerHistory.ListIsInOrder | textus/event/TimerQueue.h:74-174 | on every run the list is in order of end time, and timers that end together stand in the order they were added in, each as often as it was added since it last left |
| TimerHistory.FlagsAreHistory | textus/event/TimerQueue.h:107-124 | exit is asked for if and only if it was and has not been taken back; the flag is up if and only if somebody has signalled since it was cleared; a sleeper is signalled if and only if somebody has signalled since it tested its flags |
| TimerHistory.LoopIsInOrder | textus/event/TimerQueue.h:125-189 | the timer thread goes round its loop in order: after every wait, slept or not, it processes the queue before it tests for exit and waits again |
| TimerHistory.SleepsExactly | textus/event/TimerQueue.h:144-150 | it sleeps if and only if nobody had signalled since it cleared its flag, exit was not asked for and no task had run |
| TimerHistory.ExitsExactly | textus/event/TimerQueue.h:177-189 | it leaves its loop if and only if exit was asked for when it tested for it |
| TimerHistory.DeadlineIsFirstEnd | textus/event/TimerQueue.h:125-143 | the deadline it waits for is the earliest end time of the timers pending when it read the list, or the end of time if there were none |
| TimerHistory.CallersOweSignals | textus/event/TimerQueue.h:74-124 | a caller is bound to signal, with the queue lock or without, if and only if it has dropped a timer, asked for exit, called wake, or added a timer that ends before all pending ones, and has not signalled since |
| TimerHistory.NobodyIsStuck | textus/event/TimerQueue.h:74-203 | the two locks never lock each other out: as long as the timer thread is in its loop or a caller has to signal, one of them can go on |
| Monitor.MutualExclusion | textus/base/Base.h:98-118 | in every reachable state only the owner is inside, and the count is its nesting depth |
| Monitor.WaitRemembers | textus/base/Base.h:405-423 | while a thread is in wait it remembers its own depth, whatever others do |
| Monitor.WaitRestores | textus/base/Base.h:405-423 | wait returns with exactly the depth and ownership it was called with, spurious wake-ups included |
| Monitor.StepKeepsInv | textus/base/Base.h:178-216 | every section under the mutex keeps the monitor consistent |
| MonitorHistory.SectionsAreExact | textus/base/Base.h:98-216 | on every run a thread gets in exactly when nobody else is inside, comes back from its sleep exactly when nobody is, leaves one level at a time, and touches nobody else |
| MonitorHistory.DepthIsHistory | textus/base/Base.h:98-216 | a thread is as deep inside as it has got in, by asking or trying, and not left again; and which calls it may make |
| MonitorHistory.EveryoneGetsIn | textus/base/Base.h:98-118 | from any state on any run a thread that asks can still get in once more |
| MonitorHistory.EveryWaitReturns | textus/base/Base.h:405-423 | from any state on any run a thread in wait can still come back to the depth it called wait at |
| RefCount.CountsAreExact | textus/base/Base.h:255-297 | with the mutex free the strong count is the references held plus at most one delete guard, the weak count the weak references, and the strong count is not zero, as long as the object exists and the loop has not been given up |
| RefCount.WeakDerefNeverDeletes | textus/base/Base.h:237-253 | the deleting branch of weakDeref is never reached |
| RefCount.DeletedOnceAndUnreferenced | textus/base/Base.h:261-297 | the object is deleted at most once, with no holder of either kind left |
| RefCount.LastReferenceDeletes | textus/base/Base.h:261-297 | after the last strong reference one thread is bound to delete, and does so exactly when no weak reference is left, unless it has given up |
| RefCount.GivingUpIsRare | textus/base/Base.h:270-277 | the loop is given up only when somebody still holds a weak reference and nobody a strong one, after at least 999 checks |
| RefCount.WeakHolderStopsTheProgram | textus/base/Base.h:270-277 | a weak reference that outlasts the turns left makes the program give up |
| RefCount.CreatorStopsTheProgram | textus/base/Base.h:270-277 | it happens: a creator that takes a weak reference and drops its strong one first makes the program give up |
| RefCount.RecheckIsExact | textus/base/Base.h:270-290 | the check after the weak references deletes exactly when nobody has taken a reference meanwhile |
| RefCountHistory.HoldersAreHistory | textus/base/Base.h:231-297 | each thread holds exactly the references of either kind it has taken or been given and not dropped or passed on |
| RefCountHistory.BoundToDelete | textus/base/Base.h:255-297 | whoever drops the last strong reference is bound to delete unless somebody is already, and stays so exactly as long as it finds no strong and some weak reference and has not given up |
| RefCountHistory.CanAlwaysBeDeleted | textus/base/Base.h:237-297 | from any state on any run, unless it has been given up, the object is deleted once its holders drop what they hold, the weak references first |
| RefCountHistory.HoldersMayTake | textus/base/Base.h:231-297 | as long as the object exists, its holders and whoever is bound to delete it may take references, and nobody else; a reference can be dropped exactly by who holds it |
| Barrier.ReturnMeansAllRan | textus/base/Thread.cc:194-223 | when the call returns, every do-all thread it queued the callback on has finished running it |
| Barrier.CountIsConserved | textus/base/Thread.cc:194-223 | at every moment expected is done plus the do-all threads still owing the callback, each owing it once; a callback that crashes or is left by exit stays owed |
| Barrier.ScanReachesEveryThread | textus/base/Thread.cc:198-217 | every thread in the list at the end of the scan has the callback queued or has announced its end |
| Barrier.ScanCanEndExactly | textus/base/Thread.cc:198-212 | a scan can come to its end if and only if no thread it still has to check or signal holds its own monitor on the way out, and the one it has checked has not called exit inside a callback |
| Barrier.DeadlockIsForEver | textus/base/Thread.cc:225-235 | a scan that has such a thread in its way never ends and its call never returns, on any continuation |
| Barrier.CallCanReturnExactly | textus/base/Thread.cc:194-223 | a call that has begun can still return if and only if its scan is free in that sense and no do-all thread has lost its callback, by calling exit inside it or by clearing its entry before its end |
| Barrier.LostIsForEver | textus/base/Thread.h:281-310 | a callback lost in that way is never counted, and its call never returns, on any continuation |
| Barrier.ReturningDeadlocks | textus/base/Thread.cc:139-150 | for any thread and call the deadlock happens: the thread returns and a scan begins before it is off the list |
| Barrier.ExitInsideDeadlocks | textus/base/Thread.h:199-214 | for any thread and two calls: exit inside the callback of one, just after the scan of the other has found the thread not done, stops both calls for ever |
| Barrier.NothingAddedAfterClearing | textus/base/Thread.cc:139-152 | after clearing its entry a thread runs nothing while it is on the list, and off the list it holds exactly what was pending before |
| Barrier.CrashExactly | textus/base/ThreadCallBack.cc:30-36 | a thread that has returned, left the list and is free to drain its tasks can go through a null thread if and only if a callback was pending when it cleared its entry |
| Barrier.CrashNeedsPending | textus/base/ThreadCallBack.cc:30-36 | on every run only such a thread crashes the process, and never one that called exit |
| Barrier.ReturningCrashes | textus/base/ThreadCallBack.cc:30-36 | for any thread and call the null thread is reached: the thread returns with the callback pending |
| Barrier.CleanedUpThreadOwesItsExit | textus/base/Thread.cc:225-245 | a thread that finished its cleanup has nothing queued and gets nothing more, and has left unfinished exactly the callbacks inside which it called exit |
| Barrier.StepKeepsInv | textus/base/Thread.h:193-220 | queueing outside callbacks only, draining, finishing, starting and both ways of ending keep the accounts of every call |
| Barrier.FinishKeepsOwed | textus/base/ThreadCallBack.cc:30-36 | finishing a callback on a thread with its entry takes it off that thread and changes nobody else's debt |
| BarrierHistory.ThreadsAreHistory | textus/base/Thread.cc:139-245 | on every run a thread is on the list, done, exiting, cleared, holding its monitor or cleaned up exactly as the events say that have happened to it |
| BarrierHistory.CallsAreHistory | textus/base/Thread.cc:194-223 | a call holds the statistics lock from the beginning of its scan to its end, and has returned once it has |
| BarrierHistory.ExitGetsThrough | textus/base/Thread.cc:225-245 | a thread with nothing pending that is not ending can call exit, also inside callbacks, and get to the end of its cleanup, off the list and with its monitor given back, as long as no scan is going on |
| FileBackedNumber.FileBackedNumber.Get | textus/file/FileBackedNumber.cc:29-41 | a file that holds a number up to 2^63 - 1 gives that number; any other text gives what the library makes of it, modulo 2^64 |
| FileBackedNumber.FileBackedNumber.Increment | textus/file/FileBackedNumber.cc:43-64 | returns the old number and overwrites the text with the sum; a file holding n then holds the sum exactly |
| FileBackedNumber.FileBackedNumber.Set | textus/file/FileBackedNumber.cc:66-79 | overwrites the text without cutting it |
| FileBackedNumber.OverwriteReadsBack | textus/file/FileBackedNumber.cc:43-64 | overwritten text reads back as the new positive number below 2^63 - 1 if and only if the first old character left is not a digit |
| FileBackedNumber.ZeroReadsBack | textus/file/FileBackedNumber.cc:66-79 | writing zero reads back as zero if and only if the old digits left behind it are zeros |
| FileBackedNumber.GrowingCutsClean | textus/file/FileBackedNumber.cc:43-64 | a number that only grows always covers its old text |
| FileBackedNumber.IncrementHeld | textus/file/FileBackedNumber.cc:43-64 | incrementing text that is exactly a number leaves text that is exactly the sum |
| FileBackedNumber.HeldReadsBack | textus/file/FileBackedNumber.cc:29-41 | the decimal text of a number up to 2^63 - 1 reads back as the number |
| FileBackedNumber.ShrinkingLeavesDigits | textus/file/FileBackedNumber.cc:66-79 | setting a smaller number can read back as another one |
| FileBackedNumber.AddingNothingSettles | textus/file/FileBackedNumber.cc:43-64 | text that starts with a digit other than zero reads the same after nothing was added to it |
| FileBackedNumber.AddingNothingRepeats | textus/file/FileBackedNumber.cc:43-64 | whatever the text, from the third increment by zero on the same number is returned |
| FileBackedNumber.NumberIsRead | textus/file/FileBackedNumber.cc:29-41 | text of blanks, a sign or none, zeros and a decimal number, with no digit behind it, reads as the number with its sign |
| FileBackedNumber.NoNumberIsZero | textus/file/FileBackedNumber.cc:29-41 | anything else behind blanks and a sign reads as zero |
| OneTimeUse.NumbersAreUnique | textus/base/OneTimeUse.h:46-69 | with the lock on or one process, at most 26 reservations by a process between two starts and room in the counter, no number is issued twice over any threads, processes and restarts; issued, reserved and discarded numbers partition the range up to the counter |
| OneTimeUse.UniqueExactly | textus/base/OneTimeUse.h:46-69 | over all runs numbers are unique if and only if no process reserves more than 26 times between two starts and the lock is on or there is one process |
| OneTimeUse.ReserveRunsOut | textus/base/OneTimeUse.h:46-50 | the doubled reserve turns negative at the 27th reservation and is zero from the 28th on |
| OneTimeUse.ReserveDoubles | textus/base/OneTimeUse.h:46-50 | up to the 26th reservation the reserve doubles and stays in the range of an int |
| OneTimeUse.OneTooMany | textus/file/FileBackedNumber.h:80-84 | after 27 reservations and a new start numbers are issued again, for every initial value that is written over cleanly, with room to spare and whatever the lock |
| OneTimeUse.NothingReservedRepeats | textus/file/FileBackedNumber.h:80-84 | a process whose reserve is zero issues one number twice within four rounds, whatever the file holds |
| OneTimeUse.EveryRunCanRepeat | textus/base/OneTimeUse.h:52-69 | from any quiet state, whatever has happened and whatever the lock, 32 rounds by one process make some number be issued twice |
| OneTimeUse.UnlockedProcessesCollide | textus/file/FileBackedNumber.cc:43-64 | without the lock any two processes can both issue the number in the file, whatever it is |
| OneTimeUse.StepKeepsAccount | textus/base/OneTimeUse.h:52-74 | every event at which the counter advances keeps each number on exactly one account |
| OneTimeUse.StepKeepsCounter | textus/file/FileBackedNumber.cc:43-64 | every such event keeps the counter growing and never written back stale |
| OneTimeHistory.ThreadsAreHistory | textus/base/OneTimeUse.h:46-74 | a thread is in the middle of a reservation, or bound to issue from one, exactly when its own reads, writes, issues and restarts say so |
| OneTimeHistory.WritesWhatItRead | textus/file/FileBackedNumber.cc:43-64 | what a thread writes back is what it read and what its process was to reserve then, whatever others did meanwhile |
| GossipSide.MoverMessageProcessor.ProcessMessage | textus/mover/MoverMessageProcessor.h:339-418 | each kind of message gets its answer: HELLO a list, or GOODBYE when it is one too many; a well-formed list IWANT first if something is wanted, and the own list if it was not given yet; a request one DATA for each item and DONE; a malformed list GOODBYE; DONE GOODBYE once the own messages are sent. The flags are as the program's, and the mover is used after closing exactly for one HELLO too many or a malformed list before the own one is sent |
| GossipSide.MoverMessageProcessor.AfterConnect | textus/mover/MoverMessageProcessor.h:204-230 | what a side sends first |
| GossipSide.MoverMessageProcessor.SendMessagesDone | textus/mover/MoverMessageProcessor.h:258-270 | DONE is sent, and GOODBYE too when nothing is awaited |
| GossipSide.MoverMessageProcessor.ParseIWant | textus/mover/Mover.cc:369-393 | one DATA for each item, then DONE; GOODBYE for a malformed list |
| GossipSide.MoverMessageProcessor.SendGoodBye | textus/mover/MoverMessageProcessor.h:232-242 | GOODBYE is sent if there is a connection, and the side closes |
| GossipSession.EverySessionQuiesces | textus/mover/MoverMessageProcessor.h:339-418 | no schedule and no choice of answers keeps two connected sessions exchanging messages for ever |
| GossipSession.StepDescends | textus/mover/MoverMessageProcessor.h:339-418 | every delivery, in either direction, lowers the lexicographic measure |
| GossipSession.AnswersRankLower | textus/mover/MoverMessageProcessor.h:339-418 | every answer to a message ranks below the message |
| GossipSession.GoodbyeEndsTheConversation | textus/mover/MoverMessageProcessor.h:232-242 | on every run GOODBYE is the last message a side sends |
| GossipSession.QuietSidesAgree | textus/mover/MoverMessageProcessor.h:258-270 | at rest both sides are open or both closed, closed if and only if somebody has said GOODBYE, and closed if both have said DONE |
| GossipSession.WellFormedListsKeepTheMover | textus/mover/MoverMessageProcessor.h:347-391 | on every run between two sides only a malformed list makes a side use its mover after closing |
| GossipHistory.SessionKeepsItsWord | textus/mover/MoverMessageProcessor.h:339-418 | on every run each side has sent of each kind exactly what it came to owe, an IWANT for each well-formed list with something wanted, DATA for the items of each request, and so on; the flags of an open side are its history; every message sent has arrived or is on its way |
| GossipHistory.SentIsOwed | textus/mover/MoverMessageProcessor.h:339-418 | the count of each kind sent is the sum of what was owed at each delivery and at the start |
| GossipHistory.FlagsAreHistory | textus/mover/MoverMessageProcessor.h:339-418 | a side is open unless GOODBYE was said; how often an open side was greeted, whether it has given its list or said DONE, and whether it waits, is what reached it |
| GossipHistory.FlightIsConserved | textus/mover/MoverMessageProcessor.h:339-418 | every message the other side has sent is on its way or has reached this one |
| GossipHistory.WhatIsSentCanArrive | textus/mover/MoverMessageProcessor.h:204-230 | exactly what was sent and has not been heard can be delivered, and each side can start once |
| Wire.Append | textus/event/Message.h:110-128 | appends a number most significant byte first |
| Wire.GetUint | textus/event/Message.h:130-150 | reads the number that the bytes at an offset stand for |
| Wire.BigEndianRoundTrip | textus/event/Message.h:110-150 | a number that fits is read back from the bytes appended |
| Wire.FromBigEndianRoundTrip | textus/event/Message.h:110-150 | different bytes are different numbers: reading then writing gives the bytes back |
| Wire.Checksum | textus/event/Message.cc:89-116 | the accumulator loop computes the checksum, slot left out, whose closed form ChecksumIsWeightedSum gives |
| Wire.ChecksumIsWeightedSum | textus/event/Message.cc:89-116 | the checksum is the low 24 bits of the total plus its high byte, where the total is the sum, modulo 2^32, of each signed byte outside the slot times 256 to the number of bytes behind it in its word; words end at the multiples of four and at the end of the message |
| Wire.SecondByteStartsAWord | textus/event/Message.cc:100-109 | the shortest message with a 1 behind its first byte has the checksum 1 |
| Wire.HighByteIsNegative | textus/event/Message.cc:100-115 | a byte above 127 counts as negative, and the high byte of the total is folded in: 255 as the ninth byte of the shortest message, where a word ends, gives 254 |
| Wire.SlotDoesNotCount | textus/event/Message.cc:95-98 | a first byte of 248 counts as -8, a 17 that ends the second word as 17, and what the slot holds as nothing: the checksum is 9 |
| Wire.SetChecksum | textus/event/Message.cc:78-87 | the slot receives the checksum in place |
| Wire.ChecksumAccepted | textus/event/Message.cc:78-116 | a message whose checksum was set carries the checksum of the whole, and nothing outside the slot has changed |
| Framing.HeadPad | textus/random/Random.cc:73-81 | a pad is one byte longer than the low three bits of its first byte say |
| Framing.Marshall | textus/mover/MoverMessage.h:86-107 | the frame laid out as pad, length, type, checksum, noise length, noise, data |
| Framing.FrameIsChecksummed | textus/mover/MoverMessage.h:97-106 | a marshalled frame carries its own checksum |
| Framing.FrameLayout | textus/mover/MoverMessage.h:86-107 | what is where in a frame: the pad, the length, the four bytes of the type in order, and behind the checksum the length of the noise, the noise and the data |
| Framing.TypeSurvives | textus/file/ProtoBufReader.cc:192-197 | the type read is the type sent if and only if its three low bytes are below 128 |
| Framing.FindBuilderIsMostSpecific | textus/event/Message.cc:35-57 | the builder chosen is the one for the longest registered prefix of the type |
| Framing.ProtoBufReader.ReadMessage | textus/file/ProtoBufReader.cc:165-259 | a message is taken if and only if the announced length is in its range and fully buffered, the slot holds the checksum of exactly those bytes, no byte of the type is zero and a prefix of it is registered; the reader closes exactly when the length is out of range or such a frame is complete and fails; it waits otherwise |
| Framing.ReadsExactly | textus/file/ProtoBufReader.cc:165-259 | the same of the reading function: good frames are taken, with their type and slice, broken ones refused, all others waited for |
| Framing.ProtoBufReader.Read | textus/file/ProtoBufReader.cc:296-312 | newly arrived bytes deliver every message that has become complete, in order |
| Framing.LengthIsKnownEarly | textus/file/ProtoBufReader.cc:170-190 | with fourteen bytes of a frame its length is known |
| Framing.PartWaits | textus/file/ProtoBufReader.cc:170-191 | any proper part of a frame makes the reader wait |
| Framing.WholeFrameIsTaken | textus/file/ProtoBufReader.cc:191-250 | a whole frame is taken, with its type, its payload and the bytes spilled behind it |
| Framing.PayloadIsExact | textus/file/ProtoBufReader.cc:225-226 | over any stream in any chunks, a payload is what was sent if and only if its frame ends where a chunk ends |
| Framing.FrameByFrameIsExact | textus/file/ProtoBufReader.cc:225-226 | when every frame arrives as a chunk of its own every payload is what was sent |
| Framing.DataComesOut | textus/mover/MoverMessageProcessor.h:40-45 | the built message begins with the data that was sent and goes on with the spill only |
| Framing.DrainStream | textus/file/ProtoBufReader.cc:296-312 | any beginning of a stream yields exactly the messages complete in it and leaves the beginning of the next frame |
| Framing.FeedIsExact | textus/file/ProtoBufReader.cc:296-312 | at every moment exactly the messages complete so far are delivered, each with the bytes that had arrived behind it, up to the length of its pad |
| Framing.StreamIsDelivered | textus/file/ProtoBufReader.cc:165-312 | any chunking of a stream delivers the same messages in the same order and leaves nothing; each payload is the body sent and a spill that is the lesser of the pad and what had arrived behind the frame |
| DamagedStream.DamagedIsRefused | textus/file/ProtoBufReader.cc:204-223 | a complete frame with a wrong checksum, a zero byte in its type or nobody registered for it closes the reader and delivers nothing, whatever follows it |
| DamagedStream.PartOfDamagedWaits | textus/file/ProtoBufReader.cc:170-191 | any proper part of such a frame makes the reader wait |
| DamagedStream.DamagedStreamStops | textus/file/ProtoBufReader.cc:165-312 | wherever such a frame is in a stream, however the bytes arrive and whatever comes behind it: exactly the messages before it are delivered, in order, and the reader closes |
| Onion.StripUndoesAddHeader | textus/mover/Mover.cc:655-660 | a description strips off exactly the added header, or refuses when magic number or command do not fit |
| Onion.LayerIsPeeled | textus/mover/KeyDescription.cc:93-134 | what an entry sealed reaches its owner, or nobody |
| Onion.EncryptionIsUndone | textus/mover/MultiKeyDescription.cc:31-47 | an encrypted message is processed by the one description that owns the key |
| Onion.OwnerAnswers | textus/mover/KeyBook.cc:79-86 | groups that cannot decrypt are passed over without effect |
| Onion.OnionIsDelivered | textus/mover/AddressBookEntry.cc:50-73 | over hops whose header is "mt" or not set: what prepare made of non-empty data is delivered once, unchanged, to the last hop's owner if and only if every owner agrees with its hop; otherwise nothing is delivered |
| Onion.EveryLayerIsPeeled | textus/mover/AddressBookEntry.cc:50-73 | as many layers are peeled as were added, no fewer and no more |
| Onion.MissingHopPreparesNothing | textus/mover/AddressBookEntry.cc:53-59 | a hop missing from the address book makes prepare fail |
| Onion.EmptyMessageIsRefused | textus/mover/KeyDescription.cc:113-114 | an empty message is wrapped over any chain of hops but never delivered |
| OnionLayers.PreparesExactly | textus/mover/AddressBookEntry.cc:50-73 | prepare succeeds if and only if every hop is in the address book and every encryption succeeds with a text that is not empty; each layer is the encryption of a pad, eight bytes of magic number, four of type and what is inside where the header is "mt" or not set, and of what is inside alone where it is anything else |
| OnionLayers.StripsExactly | textus/mover/KeyDescription.cc:93-120 | a text is taken for a message if and only if it is a pad, the description's magic number, a type and data that is not empty, and the description names a command |
| OnionLayers.TrimCutsBlanks | textus/mover/MultiKeyDescription.cc:31-47 | blanks are cut from the end of a key name, all of them and nothing else |
| OnionLayers.FindsTheFirst | textus/mover/MultiKeyDescription.cc:31-47 | a key name stands for the first description of its group that has it |
| OnionLayers.StopsAtFirstSuccess | textus/mover/KeyBook.cc:79-86 | groups are tried in order up to the first that succeeds, whose success is the answer; what was delivered on the way stays delivered |
| Onion.KeyBook.Message | textus/mover/KeyDescription.cc:93-134 | answer and deliveries of one message are those of the specification |
| Onion.KeyBook.InGroup | textus/mover/MultiKeyDescription.cc:31-47 | decrypting, trimming the key name and looking it up, as specified |
| Onion.KeyBook.Data | textus/mover/KeyBook.cc:79-86 | the groups are tried in order until one succeeds |
| ConfigRoundTrip.ReadsBack | textus/config/Config.cc:77-633 | sorted data of letters and digits reads back from its own text if and only if it is a printable map, and any other map is an error |
| ConfigRoundTrip.ReadingGivesAMap | textus/config/Config.cc:394-405 | whatever a text says, what is read from it is a map |
| ConfigRoundTrip.RunContainer | textus/config/Config.cc:474-565 | a list or map where a value is wanted ends up under its key, or is refused inside a list |
| ConfigRoundTrip.RunListBody | textus/config/Config.cc:474-565 | a list's text rebuilds the list if it is non-empty and holds non-empty strings, else it fails |
| ConfigRoundTrip.RunEntries | textus/config/Config.cc:88-99 | the entries of a printed map are put into the map in order |
| ConfigRoundTrip.PutAllOrdered | textus/config/Config.cc:367-383 | putting the entries of a sorted map in order rebuilds the map |
| ConfigLines.AssignmentIsRead | textus/config/Config.cc:408-613 | any line with a key, an equals sign and a value puts exactly that into the open map: the key without the blanks at its end, the value to the end of the line |
| ConfigLines.StrayWordIsDropped | textus/config/Config.cc:592-625 | a line without an equals sign is passed over, but ends the text only in an error |
| ConfigLines.RefusesExactly | textus/config/Config.cc:506-590 | which characters are errors: an equals sign without a key, a comma or closing bracket without a wanted value, a closing bracket of the wrong kind or with nothing to close |
| ConfigLines.TrimRightCutsBlanks | textus/config/Config.cc:578-582 | blanks are dropped from the end of a key, all of them and nothing else |
| ConfigLines.PutStores | textus/config/Config.cc:367-383 | storing under a key replaces what was there, leaves other keys alone, and keeps the keys in order and different |
| ConfigLines.PrintedText | textus/config/Config.cc:77-123 | what texts, lists and maps look like, for any words; the root goes without braces |
| ConfigFile.WriteFile | textus/config/Config.cc:77-123 | the file gains exactly the printed text, without braces at depth 0 |
| ConfigFile.Config.Add | textus/config/Config.cc:367-383 | a value goes under the key or to the end of the list, and the key is used up |
| ConfigFile.Config.ReadSeparator | textus/config/Config.cc:506-565 | commas and closing brackets act as in the character machine, errors included |
| ConfigFile.Config.ReadChar | textus/config/Config.cc:414-590 | one character acts as one step of the machine |
| ConfigFile.Config.ReadLine | textus/config/Config.cc:408-591 | one line acts as the machine over its characters |
| ConfigFile.Config.FinishLine | textus/config/Config.cc:592-613 | the end of a line finishes a wanted value or fails |
| ConfigFile.Config.ReadFile | textus/config/Config.cc:385-633 | reading a file, in pieces of any size, gives what parsing its text gives |
| ConfigFile.WriteThenRead | textus/config/Config.cc:77-633 | writing and then reading a file gives the data back if and only if it is a printable map |
| ConfigFile.TrimmedKey | textus/config/Config.cc:578-582 | blanks at the end of a key are dropped |
| TextLines.LineIterator.ReadMore | textus/file/TextusFile.cc:175-190 | the buffer grows by what the read gives; the text still to come stays the same |
| TextLines.LineIterator.Deref | textus/file/TextusFile.cc:199-214 | the first line of the text still to come; a last line without newline is used up |
| TextLines.LineIterator.Advance | textus/file/TextusFile.cc:216-233 | drops the first line and its newline, or reaches the end |
| TextLines.ReadLines | textus/file/TextusFile.h:98-99 | walking from begin to end gives exactly the lines of the file for any sizes of reads |
| Split.PiecesJoin | textus/file/TextusFile.cc:199-233 | the lines joined by newlines are the text |
| Split.PiecesHoldNoSeparator | textus/file/TextusFile.cc:199-233 | no line holds a newline |
| Split.PiecesAreUnique | textus/file/TextusFile.cc:199-233 | there is no other way to cut the text into lines |
| DnsQuestion.ComputeLabelLength | textus/network/NetworkAddress.cc:492-510 | one more than the non-empty labels take with their length bytes |
| DnsQuestion.WriteLabels | textus/network/NetworkAddress.cc:547-572 | the labels up to the first empty one are written behind the header, within the buffer; fails exactly when one of them is 64 bytes or longer |
| DnsQuestion.Start | textus/network/NetworkAddress.cc:512-585 | the whole packet, or the error, for every host name; no write leaves the buffer |
| DnsQuestion.LabelsFit | textus/network/NetworkAddress.cc:492-575 | the label bytes written never exceed what was counted, and equal it if and only if no label follows an empty one |
| DnsQuestion.QuestionIsSkipped | textus/network/NetworkAddress.cc:627-638 | under any header and before any answers, skipping the question stops right behind the class field |
| DnsQuestion.SentQuestionIsSkipped | textus/network/NetworkAddress.cc:536-585 | the same for the packet as it is sent, whose length is stated exactly |
| DnsQuestion.SkipsLabels | textus/network/NetworkAddress.cc:627-638 | skipping walks over any labels to the zero behind them |
| DnsQuestion.EatQuery | textus/network/NetworkAddress.cc:627-638 | the skipping loop computes the skipping function, short packets included |
| DnsQuestion.NameIsRead | textus/network/NetworkAddress.cc:547-575 | read as a domain name, the question holds exactly the labels written |
| DnsQuestion.QuestionNamesTheHost | textus/network/NetworkAddress.cc:536-575 | without empty labels the question names exactly the host |
| DnsQuestion.AsksForHost | textus/network/NetworkAddress.cc:512-585 | for a host of any non-empty labels: if all are shorter than 64 bytes the packet is the header, a question a reader reads the labels from, type 1 and class 1; if not, the host is refused; so is one that starts with a dot |
| LruCache.Cache.Touch | textus/base/Cache.h:104-107 | a present key becomes the most recent; an absent one changes no order |
| LruCache.Cache.Prune | textus/base/Cache.h:109-117 | exactly the count least recently used present keys go, values of the others unchanged; the list never runs empty on the way |
| LruCache.Cache.Insert | textus/base/Cache.h:178-184 | makes room if full, then keeps an old value or stores the new one as most recent |
| LruCache.Cache.Find | textus/base/Cache.h:229-231 | finds a present key and makes it the most recent |
| LruCache.Cache.Count | textus/base/Cache.h:237-240 | one or zero, and a present key becomes the most recent |
| LruCache.Cache.Erase | textus/base/Cache.h:204-217 | the key is gone from map and order, everything else stays |
| LruCache.Cache.Set | textus/base/Cache.h:267-273 | the key is stored as most recent and is never the one evicted |
| LruCache.Cache.OrderIsTheKeys | textus/base/Cache.h:104-117 | the list holds every key of the map, in an order without duplicates |
| LruCache.NextIsConsistent | textus/base/Cache.h:104-273 | after any operation no key occurs twice and the limit is kept |
| LruCache.RecentKeyStays | textus/base/Cache.h:104-273 | a key just used survives any run that names fewer other keys than the cache holds, one fewer where insert is among the operations |
| LruCache.InsertForgetsNeedlessly | textus/base/Cache.h:178-184 | with insert the bound cannot be better: every full cache of two keys or more can forget the key used last by inserting keys it already holds |
| LruCache.StoringMeans | textus/base/Cache.h:178-273 | after inserting or assigning, the key is the most recent, with its old value where insert found it; the others keep order and value, but for the one used longest ago where room had to be made |
| HashTree.HashFileStore.FindDirectoryFor | textus/file/HashFileStore.cc:32-60 | the directory for a hash is found if it exists; if not it is made on request, and nothing else changes |
| HashTree.HashFileStore.GetData | textus/file/HashFileStore.cc:118-134 | the content stored under the hash up to 131072 bytes, or nothing |
| HashTree.HashFileStore.Seen | textus/file/HashFileStore.cc:179-192 | true exactly for hashes known or stored |
| HashTree.HashFileStore.WriteData | textus/file/HashFileStore.cc:195-227 | refuses a present hash unless overwriting; else the bytes written become the beginning of the content under this hash only, with what was behind them left standing, and the hash is added exactly when all bytes are written |
| HashTree.HashFileStore.AssembleHashes | textus/file/HashFileStore.cc:76-92 | collects exactly the hashes of the files below a directory |
| HashTree.HashFileStore.Rebuild | textus/file/HashFileStore.cc:105-108 | the rebuilt set is exactly the hashes that have content |
| HashTree.PathRoundTrip | textus/file/HashFileStore.cc:32-60 | the names on the way to a file spell its hash |
| HashTree.HashRoundTrip | textus/file/HashFileStore.cc:76-92 | every path of hex names is the way to the hash it spells, so no two hashes share a file |
| HashTree.HashIsHexDigits | textus/file/HashFileStore.cc:76-92 | a hash is upper-case hex digits and nothing else |
| HashTree.PathNames | textus/file/HashFileStore.cc:32-60 | each name on the way to a file is two digits of its hash, in order |
| FlatStore.PerformAll | textus/file/HashFileStore.cc:76-227 | any sequence of writes, reads, questions and rebuilds is answered as by a flat map from hashes to contents, and leaves a store that refines what the map becomes |
| FlatStore.AnswersOfNewStore | textus/file/HashFileStore.cc:76-227 | a new store answers as the empty map |
| FlatStore.StoredStays | textus/file/HashFileStore.cc:195-227 | what is stored stays as it is over any operations that do not overwrite it |
| FlatStore.StoredIsRead | textus/file/HashFileStore.cc:118-227 | data written in full under a new hash is read, known and refused again over any such operations, rebuilding included |
| SeenCache.Mover.IWant | textus/mover/Mover.cc:260-270 | wanted exactly when the store has not seen the hash, whatever the cache holds or forgets |
| SeenCache.Mover.StoreData | textus/mover/Mover.cc:399-430 | stores successfully exactly when small enough, allowed, unseen and written; each hash at most once, others untouched |
| LeakyBucket.LeakyBucket.Add | textus/base/LeakyBucket.h:79-88 | leaks, adds, cuts at the limit, and flags an overflow exactly when something was swallowed |
| LeakyBucket.LeakyBucket.Increment | textus/base/LeakyBucket.h:68-77 | the same for one unit |
| LeakyBucket.LeakyBucket.Overflow | textus/base/LeakyBucket.h:95-100 | tells whether anything was swallowed since it was last asked |
| LeakyBucket.LevelsStayInRange | textus/base/LeakyBucket.h:48-88 | the level stays between the initial value and the limit |
| LeakyBucket.RateIsBounded | textus/base/LeakyBucket.h:48-88 | over any stretch of time the additions accepted are at most the depth plus what leaks in that time, rounded down once |
| LeakyBucket.BurstsReachTheBound | textus/base/LeakyBucket.h:48-88 | the bound is reached by two bursts |
| LeakyBucket.FrequentUseNeverLeaks | textus/base/LeakyBucket.h:48-58 | a bucket always used again before a unit has leaked holds the sum of all that was added, up to its limit, however much time passes |
| LeakyBucket.DepthZeroAlwaysOverflows | textus/base/LeakyBucket.h:61-77 | a bucket constructed without a limit swallows every addition after any run, so every use flags an overflow |
| IHaveSelection.Choose | textus/random/Random.h:89-111 | k different members of a set that has as many, else all of them and blanks |
| IHaveSelection.ReservoirAtEnd | textus/random/Random.h:89-111 | what the reservoir holds after the whole input |
| IHaveSelection.SelectRandom | textus/mover/Mover.cc:458-474 | a subset of exactly the size asked for, or the set with the empty string |
| IHaveSelection.AddRandom | textus/mover/Mover.cc:342-360 | members of the other set are added until exactly the size asked for is reached |
| IHaveSelection.Mover.AddIHave | textus/mover/Mover.cc:251-258 | the peer's set is replaced and the own set grows |
| IHaveSelection.Mover.NewItems | textus/mover/Mover.cc:289-297 | the offered hashes not already advertised to the peer |
| IHaveSelection.Mover.DrawSize | textus/mover/Mover.cc:318-324 | the size drawn lies in its range, at most the maximum and the number offered |
| IHaveSelection.Mover.ParseIHave | textus/mover/Mover.cc:272-340 | wanted hashes are offered ones not advertised; all of a short list, exactly the drawn number of a long one; malformed lists end the session; the reply is a well-formed list from which the peer reads the hashes wanted, an empty one excepted |
| IHaveSelection.ReplyIsUnderstood | textus/base/Utility.h:57-69 | the peer reads exactly the hashes joined, in order, if and only if neither the first nor the last is empty |
| IHaveSelection.EmptyHashIsLost | textus/base/Utility.h:57-69 | in a sorted reply the empty hash is always lost, and it alone |
| IHaveSelection.JoinStrings | textus/base/Utility.h:57-69 | the joining loop, which starts over as long as the text is empty |
| IHaveSelection.JoinDropsBlanks | textus/base/Utility.h:57-69 | joining forgets the empty strings at the front and joins the rest with separators |
| IHaveSelection.BlankLineIsAnItem | textus/mover/Mover.cc:289-297 | a blank line in an offer is read as an empty hash |

## Left out

- Sockets, select loop, SSL, SOCKS, shell, signals and real files: a file is a string with a position, a directory tree a map from paths, a process the events it takes part in.
- Encryption, hashing and the quality of random numbers: functions with stated laws, or arbitrary choices. No claim about probabilities is made.
- Progress: the thread modules prove what never happens and what can still happen from every state, not that a scheduler makes it happen, since condition variables and mutexes are not part of this model.
- Monitor, RefCount, TimerHandshake, Barrier and OneTimeUse are events on values and not methods on objects, because what matters in them is what other threads do between two sections of one method.
- RefCount.DeletedOnceAndUnreferenced: does not model a weakDelete that returns 0, whose path decrements the count outside the mutex.
- TimerHandshake.NoMissedTimer: does not model a timer that is restarted while it is queued, which changes its end time without telling the list.
- Barrier.CleanedUpThreadOwesItsExit: the flag that takes part in do-all calls is constant. Callbacks take no lock that a scan holds other than by calling exit, so callbacks that start threads or make do-all calls themselves are left out, as are the delivery of the signal, exit called from its handler while other locks are held, an end of the calling thread before its call returns, threads that end without returning or calling exit, and the destructor of the thread's entry, which asserts that it is never called.
- OneTimeUse.NumbersAreUnique: the reserve starts at its default of 16, and the counter has room for each reservation within a long long; what the C library reads beyond that is taken as the nearest end of the range. The generic addChunk that counts up in a loop is left out, only the file-backed one is modelled.
- FileBackedNumber.FileBackedNumber.Get: text that stands for a number beyond the range of a long long, for which the C standard promises nothing, reads as the nearest end of the range.
- GossipSide.MoverMessageProcessor.ProcessMessage: timers, extensions and the content of messages are left out, and after going through a null mover the model continues as if the call had no effect. Which items are sent is not claimed, as the program sends the last item parsed each time.
- GossipSession.EverySessionQuiesces: for sessions with timers and extensions off; RANDOM messages are no-ops.
- Framing.ProtoBufReader.ReadMessage: a frame shorter than its own header and checksum makes the program stop at an assertion or read past its end; the model closes the reader there.
- Framing.StreamIsDelivered: for messages a reader can take, that is with a registered type whose bytes are not zero and whose low three are below 128, and a total length under the limit; the marshalling of protocol buffer messages, which writes no pad, is left out.
- Onion.OnionIsDelivered: hops with an unknown header type, which adds no header, are excluded, and so are chains that never end. The template and shell that take the message are one function.
- Onion.KeyBook.Data: depth is a bound on the nesting of messages, needed because nothing else makes the recursion end; a caller has to know a depth that suffices, and EveryLayerIsPeeled gives the least one.
- ConfigRoundTrip.ReadsBack: strings and keys are letters and digits. Escapes, quotes, comments, commands and templates are left out: escaping and cloning do not do what they are meant to, so there is no round trip beyond this.
- ConfigFile.Config.ReadFile: a node under construction is kept beside its parents and put into them when it is closed, where the program links it into its parent at once; a file with a character not modelled is answered as such.
- DnsQuestion.EatQuery: a length byte from 128 to 191 leads the program backwards; the model follows it, for packets in which the walk stays inside the packet and ends.
- LruCache.Cache.Set: stands for the reference that operator[] returns together with the assignment through it. Iteration, swap and a limit that changes or is 0 are left out.
- HashTree.HashFileStore.WriteData: failing to make a directory or open a file is left out; short writes are modelled. Hashes have one fixed even length.
- HashTree.HashFileStore.GetData: a read gives as much as there is, up to the limit.
- SeenCache.Mover.IWant: expiry of stored files, which could make a cached hash unseen, is left out, and so are list items that are not hashes of the fixed length of the store.
- IHaveSelection.AddRandom: it may draw members it already has, so it ends only with probability one; the contract is about the calls that end, within a number of rounds that is a parameter.
- IHaveSelection.Choose: which members are chosen is arbitrary; that the choice is uniform is not claimed.
- LeakyBucket.DepthZeroAlwaysOverflows: for a rate whose denominator is positive, though the program never sets the rate of the bucket this is about.
- LeakyBucket.LeakyBucket.Add: values are unbounded integers and amounts are not negative; the narrow integer types the template can be used with are left out.
- The compression walk of processAnswer, expiry and links in the hash store, memory allocation, bit maps, file-backed sets, the database layer, logging, monitoring, key providers and command line are not modelled.
