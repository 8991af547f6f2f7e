# Verification of the kernel and text cores

A Dafny model of the hard parts of this RT-Thread firmware, with proofs.

* Thread communication (`WaitList`, `WaitOrder`, `Mailbox`, `MessageQueue`, `Event`, `Mutex`, `MutexKernel`). Each region between
  disabling and enabling interrupts is one atomic step. A call that blocks is several steps, so the
  theorems speak about all runs: any number of threads, stealing, waking and waiting again, timeouts and
  resets included. A pure state machine carries the theorems; beside it a class has the fields of the
  kernel object, and each of its methods is proved to be the step of the machine. `MailboxAnswers`,
  `QueueAnswers`, `EventAnswers` and `MutexAnswers` say what the callers are told, in every run, in
  terms of the calls and the earlier answers.
* The heap (`Heap`, `HeapTheorems`, `HeapObject`, `HeapAnswers`, `Alignment`). The specification is the memory words together with
  the chain of blocks they encode; the class works on one array of words with the headers in band.
* JSON (`Json`, `JsonRoundTrip`, `JsonParse`, `JsonString`, `JsonPrint`, `Pow2`, `JsonBuffer`, `JsonMinify`). `Render`
  says what text a tree has; two printers, a parser and a minifier are proved against it. `JsonGrammar`
  states the grammar of RFC 8259 without the parser and proves that the parser reads every text of it;
  `JsonAccepts` says exactly what else it accepts; `MinifyTokens` tells the minifier by tokens.
* The bounded formatter (`Printf`, `PrintfTheorems`, `PrintfFields`, `Numerals`) and the web server's path normalisation (`WebPath`,
  `WebPathTheorems`).

`dafny verify dfyconfig.toml` checks everything.

Where the code does something its comments or documentation do not say, the model follows the code:
`heap_end->prev` is not kept up on a split; an in-place shrink does not lower `lfree` and may leave a
payload below the minimum; the search bound of `rt_malloc` is strict, so an exact fit at the end of the
heap is passed over; `%o` prints hexadecimal digits and a precision of zero prints no digits; an empty
JSON object is indented by one tab less than its depth; path normalisation removes the root when `..`
climbs above it; the buffered printer returns a wrong pointer for a formatted object that is not at
depth 0, which no caller uses. Four promises fail on some inputs; each has a lemma with such an input and
one that says exactly when it holds: `Mutex.HoldWraps` with `Mutex.TakeSound`, `Mutex.BoostCanStick` with
`Mutex.LastReleaseRestores`, `HeapTheorems.ShrinkHidesBlock` with `HeapTheorems.ShrinkLowest`, and
`WebPathTheorems.ClimbingPaths` with `WebPathTheorems.NormalizeOutcome` and `WebPathTheorems.StaysAbsolute`.

## Model

| member | source | states |
|---|---|---|
| `WaitList.ListSuspend` | rt-thread/src/ipc.c:79-122 | the loop puts the thread where the specification `Suspended` does, for FIFO and for priority order |
| `WaitList.SuspendedSorted` | rt-thread/src/ipc.c:90-119 | priority order is kept, and the new thread stands behind all of its own priority and before all less urgent ones |
| `WaitList.SuspendedMembers` | rt-thread/src/ipc.c:79-122 | the list gains exactly the suspended thread |
| `WaitList.SuspendedNoDuplicates` | rt-thread/src/ipc.c:79-122 | a thread that was not in the list is in it once afterwards |
| `WaitList.WithoutSorted` | rt-thread/src/ipc.c:133-146 | taking a thread out keeps the order |
| `WaitList.WithoutMembers` | rt-thread/src/ipc.c:133-146 | taking a thread out removes it and no other |
| `Bytes.Int32` | rt-thread/src/ipc.c:1525-1532 | conversion to 32 bits with wrap-around, used for the remaining waiting time and for printf arguments |
| `WaitOrder.SuspendedPlace` | rt-thread/src/ipc.c:79-122 | a FIFO thread queues behind all others; a priority thread behind those at least as urgent and in front of the first less urgent one |
| `WaitOrder.SuspendedKeepsOrder` | rt-thread/src/ipc.c:79-122 | a thread that joins does not change who stands before whom |
| `WaitOrder.RemainingTime` | rt-thread/src/ipc.c:1525-1532 | the waiting time left is the bound less the elapsed ticks, never below 0; no bound and no waiting stay as they are |
| `Mailbox.EveryRun` | rt-thread/src/ipc.c:1441-1757 | in every reachable state: no lost wake-up in either direction (stored mails against receivers resumed but not yet run, free slots against senders), received mails followed by stored ones are the committed sends in order since the last reset, and a thread is on a list exactly while its call waits |
| `Mailbox.StepKeepsInv` | rt-thread/src/ipc.c:1441-1757 | each atomic region (first pass, pass after waking, timeout, reset) keeps the invariant, whatever runs in between |
| `Mailbox.RunKeepsInv` | rt-thread/src/ipc.c:1441-1757 | so does every run |
| `Mailbox.QuiescentMailbox` | rt-thread/src/ipc.c:1441-1757 | once no resumed thread is left to run, receivers sleep only on an empty mailbox and senders only on a full one |
| `Mailbox.MailboxObject.constructor` | rt-thread/src/ipc.c:1293-1321 | an empty mailbox of the given size |
| `Mailbox.MailboxObject.Put` | rt-thread/src/ipc.c:1535-1541 | the ring store appends to the mail sequence; in_offset stays (out_offset + entry) mod size |
| `Mailbox.MailboxObject.Take` | rt-thread/src/ipc.c:1683-1690 | the ring fetch removes the oldest mail |
| `Mailbox.MailboxObject.SendPass` | rt-thread/src/ipc.c:1461-1557 | one pass of a send is the step `TrySend` |
| `Mailbox.MailboxObject.RecvPass` | rt-thread/src/ipc.c:1607-1708 | one pass of a receive is the step `TryRecv`; what that answers is in `MailboxAnswers.RecvAnswer` and `DeliveredInOrder` |
| `Mailbox.MailboxObject.RunOn` | rt-thread/src/ipc.c:1514-1533 | a woken thread returns its error or makes another pass with the waiting time that is left |
| `Mailbox.MailboxObject.TimerFires` | rt-thread/src/ipc.c:1488-1512 | a timeout takes the thread off its list with a timeout error |
| `Mailbox.MailboxObject.Clear` | rt-thread/src/ipc.c:1733-1757 | the reset command resumes both lists with an error and empties the ring |
| `Mailbox.MailboxObject.Perform` | rt-thread/src/ipc.c:1441-1757 | the object, step by step, is the state machine the theorems are about |
| `MailboxAnswers.DeliveredInOrder` | rt-thread/src/ipc.c:1441-1757 | told from calls and answers alone: in every run the mails handed to receivers, followed by those still stored, are the mails of the sends that were told success, in order, since the last reset |
| `MailboxAnswers.SendAnswer` | rt-thread/src/ipc.c:1461-1557 | in every reachable state a send succeeds exactly when the mailbox is not full, gives up with full exactly when it is full and the timeout is 0, and waits otherwise |
| `MailboxAnswers.RecvAnswer` | rt-thread/src/ipc.c:1607-1708 | in every reachable state a receive gets the oldest mail exactly when there is one, times out exactly when there is none and the timeout is 0, and waits otherwise |
| `MailboxAnswers.ResumesHead` | rt-thread/src/ipc.c:1543-1557 | a stored mail or a freed slot resumes the head of the other list and changes no other call |
| `MailboxAnswers.ResetAnswer` | rt-thread/src/ipc.c:1733-1757 | a reset empties the mailbox and gives every waiting call, and no other, an error |
| `MailboxAnswers.EveryWait` | rt-thread/src/ipc.c:1488-1557 | in every run a waiting call waits until it is resumed; then it is told a timeout exactly if its timer fired, an error only after a reset, and otherwise what another pass with the remaining time says |
| `MailboxAnswers.NoOvertaking` | rt-thread/src/ipc.c:79-122 | in every run in which the first of two waiting threads goes on waiting, the second goes on waiting behind it, unless its timer fires |
| `MessageQueue.EverySlotAccounted` | rt-thread/src/ipc.c:1780-2326 | in every reachable state each slot is on the free list, in the queue or in flight with one call, and nowhere twice |
| `MessageQueue.StepKeepsInv` | rt-thread/src/ipc.c:1963-2326 | each split step (claim, fill, link, take, copy out, release, timeout, reset) keeps partition, contents and wake-up invariants |
| `MessageQueue.RunKeepsInv` | rt-thread/src/ipc.c:1963-2326 | so does every interleaving of them |
| `MessageQueue.StepRefines` | rt-thread/src/ipc.c:1963-2326 | each step is a step of a double-ended queue of messages or changes nothing in it |
| `MessageQueue.DequeRefinement` | rt-thread/src/ipc.c:1963-2326 | every run from a sound state is a run of the double-ended queue |
| `MessageQueue.EveryRunIsADeque` | rt-thread/src/ipc.c:1963-2326 | from the start: send enters at the back, urgent at the front, receive leaves at the front, with the message of the answer unchanged up to the buffer size; the events are read off calls and answers |
| `MessageQueue.QuiescentQueue` | rt-thread/src/ipc.c:2138-2262 | once no resumed receiver is left to run, receivers sleep only on an empty queue |
| `MessageQueue.MessageQueueObject.constructor` | rt-thread/src/ipc.c:1780-1826 | message size and slot count, each kept in 16 bits, and the loop that links all slots of the pool into the free list |
| `MessageQueue.MessageQueueObject.ClaimSlot` | rt-thread/src/ipc.c:1974-1999 | claims the first free slot, or refuses a message that is too long or a full queue; when exactly is in `QueueAnswers.SendAnswer` |
| `MessageQueue.MessageQueueObject.FillStep` | rt-thread/src/ipc.c:1999-2003 | copies the message into the claimed slot, with the lock released |
| `MessageQueue.MessageQueueObject.LinkStep` | rt-thread/src/ipc.c:2005-2036 | links the filled slot and wakes one receiver |
| `MessageQueue.MessageQueueObject.PushBack` | rt-thread/src/ipc.c:2006-2020 | the slot becomes the last of the linked list |
| `MessageQueue.MessageQueueObject.PushFront` | rt-thread/src/ipc.c:2095-2104 | the slot becomes the first of the linked list |
| `MessageQueue.MessageQueueObject.PopFront` | rt-thread/src/ipc.c:2237-2247 | the first slot leaves the linked list; head and tail become null together |
| `MessageQueue.MessageQueueObject.RecvPass` | rt-thread/src/ipc.c:2161-2250 | one pass of a receive is the step `TryRecv` |
| `MessageQueue.MessageQueueObject.RunOn` | rt-thread/src/ipc.c:2217-2234 | a woken receiver returns its error or makes another pass |
| `MessageQueue.MessageQueueObject.CopyStep` | rt-thread/src/ipc.c:2252-2254 | copies the message out, with the lock released |
| `MessageQueue.MessageQueueObject.ReleaseStep` | rt-thread/src/ipc.c:2256-2261 | the slot goes back to the free list and the copied message is returned; `QueueAnswers.EveryAnswer` says which message that is |
| `MessageQueue.MessageQueueObject.DrainQueue` | rt-thread/src/ipc.c:2296-2314 | the reset loop moves every queued slot to the free list, last one first |
| `MessageQueue.MessageQueueObject.ResetQueue` | rt-thread/src/ipc.c:2288-2321 | reset resumes the receivers and drains the queue; slots in flight stay with their calls |
| `MessageQueue.MessageQueueObject.Perform` | rt-thread/src/ipc.c:1963-2326 | the object, step by step, is the state machine the theorems are about |
| `QueueAnswers.EveryAnswer` | rt-thread/src/ipc.c:1963-2326 | in every run every call is answered as a deque of bounded capacity answers it, judged from the calls and the earlier answers alone: a send is refused as too long exactly above the message size and as full exactly when queued, offered and taken messages fill all slots; a receive returns the popped message cut to its own buffer |
| `QueueAnswers.SendAnswer` | rt-thread/src/ipc.c:1974-1999 | in every reachable state a send continues exactly when the message is at most the message size and fewer slots than all are queued or held, and then holds a slot nobody else has; error exactly when it is longer, full otherwise |
| `QueueAnswers.RecvAnswer` | rt-thread/src/ipc.c:2161-2250 | a receive takes the first message exactly when there is one, times out exactly when there is none and the timeout is 0, and waits otherwise |
| `QueueAnswers.ResetAnswer` | rt-thread/src/ipc.c:2288-2321 | a reset empties the queue and gives every waiting receive an error; a call that holds a slot keeps it |
| `QueueAnswers.EveryWait` | rt-thread/src/ipc.c:2200-2250 | in every run a waiting receive waits until it is resumed; then it is told a timeout exactly if its timer fired, an error only after a reset, and otherwise what another pass with its own buffer and the remaining time says |
| `QueueAnswers.NoOvertaking` | rt-thread/src/ipc.c:79-122 | a receiver behind another is not served before it |
| `Event.ScanReceives` | rt-thread/src/ipc.c:1053-1101 | the walk of a send is a non-blocking receive for each waiter in list order |
| `Event.SendReceivesForEveryWaiter` | rt-thread/src/ipc.c:1028-1109 | in every reachable state a send is OR-ing in the bits and then that, with the same received bits and the same remaining set |
| `EventAnswers.RecvAnswer` | rt-thread/src/ipc.c:1155-1214 | bit by bit: a receive delivers exactly when every wanted bit is set with AND, some wanted bit with OR; it delivers the wanted bits that are set and takes them away exactly with CLEAR; otherwise it times out exactly with timeout 0 and waits otherwise |
| `EventAnswers.SleepersLackBits` | rt-thread/src/ipc.c:1028-1236 | in every reachable state a thread waiting for all its bits lacks one of them, and a thread waiting for any of its bits has none |
| `EventAnswers.SendServes` | rt-thread/src/ipc.c:1053-1101 | in every reachable state a send leaves a waiter waiting or gives it all its bits, with OR some of them, out of the bits now set; bits cleared for one waiter are gone and given to nobody behind it |
| `EventAnswers.SendBroadcasts` | rt-thread/src/ipc.c:1053-1101 | when no waiter clears, a send resumes exactly the waiters whose condition the new bits meet, each with its part of them, and removes no bit |
| `EventAnswers.SendAnswer` | rt-thread/src/ipc.c:1028-1050 | a send refuses exactly the empty mask |
| `EventAnswers.EveryWait` | rt-thread/src/ipc.c:1190-1236 | in every run a waiting call waits for the same bits until it is resumed; then it is told a timeout exactly if its timer fired, an error only after a reset, and otherwise gets all its bits, with OR at least one of them |
| `EventAnswers.WaitersKeepOrder` | rt-thread/src/ipc.c:1053-1101 | two waiting calls keep their order in the list, whatever happens in between |
| `Event.StepKeepsInv` | rt-thread/src/ipc.c:1028-1264 | each step keeps that invariant |
| `Event.EventObject.SendEvent` | rt-thread/src/ipc.c:1046-1103 | the loop over the suspended threads is `Sent` |
| `Event.EventObject.RecvEvent` | rt-thread/src/ipc.c:1155-1214 | the first pass of a receive is `TryRecv`; what that answers is in `EventAnswers.RecvAnswer` |
| `Event.EventObject.ResetEvent` | rt-thread/src/ipc.c:1256-1273 | reset resumes all waiters with an error and clears the set |
| `Event.EventObject.Perform` | rt-thread/src/ipc.c:1028-1264 | the object, step by step, is the state machine the theorems are about |
| `Mutex.EveryRunOwnership` | rt-thread/src/ipc.c:653-880 | over all runs with any number of mutexes: value is 1 exactly when nobody owns it and hold is 0, waiters exist only while it is owned, the owner never waits on it, hold is the owner's takes minus its releases |
| `Mutex.TakeSound` | rt-thread/src/ipc.c:680-749 | a take keeps the mutex sound exactly when it is not the 256th nested one |
| `Mutex.HoldWraps` | rt-thread/src/ipc.c:680-684 | a run of 255 takes by one thread reaches the limit of the 8-bit hold, and the 256th wraps it to 0 while the thread stays the owner |
| `Mutex.HandoverIsDirect` | rt-thread/src/ipc.c:828-870 | the last release hands the mutex to the head of the list; in every run until that thread runs it stays the owner, resumed without error, and no other thread's take succeeds |
| `Mutex.PriorityInheritance` | rt-thread/src/ipc.c:653-880 | for one priority-ordered mutex: the list is sorted, first come first among equals; the owner is at least as urgent as every waiter, just after a handover too; all others have their own priority; a full release restores the owner's |
| `Mutex.LastReleaseRestores` | rt-thread/src/ipc.c:653-880 | with any number of mutexes and boosts: letting go of the last mutex gives the priority recorded when it was acquired; so the priority of owning nothing comes back exactly when the mutex's original priority is that one, as it is if it was also the first |
| `Mutex.BoostCanStick` | rt-thread/src/ipc.c:828-870 | a run of two mutexes, released in the order they were taken, that leaves a thread owning nothing with a boosted priority |
| `Mutex.MutexObject.TakeMutex` | rt-thread/src/ipc.c:669-749 | the object's take is `Take` |
| `Mutex.MutexObject.ReleaseMutex` | rt-thread/src/ipc.c:808-873 | the object's release is `Release`, and the resumed thread is the head of the old list |
| `MutexKernel.Kernel.Perform` | rt-thread/src/ipc.c:653-880 | mutex objects, thread table and suspended calls together, step by step, are the system the theorems are about; take, release, waking, timeout and priority change included; `MutexAnswers` says what the callers are told |
| `Mutex.MutexObject.TimerFires` | rt-thread/src/ipc.c:729-749 | a timeout takes the thread off the list |
| `MutexAnswers.EveryWait` | rt-thread/src/ipc.c:729-768 | in every run a take that waits goes on waiting, or was handed the mutex and owns it once, or its timer fired and it does not own it; when the thread runs it is told success exactly if it owns the mutex and a timeout exactly if its timer fired |
| `MutexAnswers.TakeAnswer` | rt-thread/src/ipc.c:680-749 | in every reachable state a take succeeds at once exactly when nobody else owns the mutex, times out exactly when another owns it and the time is 0, and waits otherwise |
| `MutexAnswers.ReleaseAnswer` | rt-thread/src/ipc.c:808-873 | a release succeeds exactly for the owner; any other caller changes nothing |
| `MutexAnswers.NoOvertaking` | rt-thread/src/ipc.c:828-870 | in every run in which the first of two waiters goes on waiting, the second goes on waiting behind it, unless its timer fires |
| `MutexAnswers.FirstComeFirstServed` | rt-thread/src/ipc.c:79-122 | in every reachable state the waiters of a FIFO mutex stand in the order in which they began to wait |
| `HeapTheorems.EveryRun` | rt-thread/src/mem.c:156-609 | every run of malloc, free, shrink and stores keeps: blocks tile the heap up to its end, headers agree with the chain (the closing header's back link excepted), no two adjacent free blocks, lfree is a free block or the end, used_mem is the size of the used blocks and max_mem its maximum so far |
| `HeapTheorems.FreeAllInAnyOrder` | rt-thread/src/mem.c:546-609 | freeing all live blocks in any order gives back one free block |
| `Heap.MallocKeepsInv` | rt-thread/src/mem.c:272-410 | malloc keeps the invariant; success adds one block that was free, failure changes nothing |
| `Heap.FreeKeepsInv` | rt-thread/src/mem.c:546-609 | free keeps the invariant and removes one block |
| `Heap.ShrinkKeepsInv` | rt-thread/src/mem.c:471-498 | the in-place shrink keeps the invariant |
| `Heap.PlugHolesSound` | rt-thread/src/mem.c:156-194 | joining with both neighbours leaves no adjacent free blocks |
| `HeapTheorems.MallocResult` | rt-thread/src/mem.c:305-410 | the block was free, holds the request, and is cut when the rest can be a block |
| `HeapTheorems.LiveBlocksDisjoint` | rt-thread/src/mem.c:272-410 | live blocks do not overlap and lie inside the heap |
| `HeapTheorems.RunKeepsPayload` | rt-thread/src/mem.c:272-609 | no run changes the extent or the words of a live block it does not target |
| `HeapTheorems.MallocFails` | rt-thread/src/mem.c:289-310 | malloc fails exactly when the request exceeds the heap or no block from lfree on is free, starts below the strict bound and has room |
| `HeapTheorems.MallocFailsLowest` | rt-thread/src/mem.c:289-310 | where lfree is the lowest free block, the only fitting block passed over is an exact fit at the end of the heap |
| `HeapTheorems.MallocFailsInEveryRun` | rt-thread/src/mem.c:289-410 | the same in every run whose in-place shrinks all happen behind lfree |
| `HeapTheorems.ShrinkLowest` | rt-thread/src/mem.c:471-498 | an in-place shrink keeps lfree the lowest free block exactly when lfree lies below the block or is the free block right behind it |
| `HeapTheorems.ShrinkHidesBlock` | rt-thread/src/mem.c:471-498 | a run after which rt_malloc finds nothing although a free block has room, because a shrink freed it below lfree |
| `HeapTheorems.PassedOver` | rt-thread/src/mem.c:306-311 | a free block with room that the bound rules out is an exact fit at the end |
| `HeapTheorems.MallocFreeRoundTrip` | rt-thread/src/mem.c:305-609 | freeing what malloc returned restores block map, lfree and used_mem |
| `HeapTheorems.ReallocMoves` | rt-thread/src/mem.c:499-509 | with other threads' steps between malloc, copy and free, the new block ends up with the first words of the old one |
| `HeapTheorems.CopyWorks` | rt-thread/src/mem.c:503-505 | the copy keeps the invariant and the source block and fills the target |
| `HeapObject.AlignedRoundTrip` | rt-thread/src/kservice.c:1229-1280 | the word in front of the region rt_malloc_align returns is the address rt_free_align needs: it names a live block, and freeing it restores block map, lfree and used_mem |
| `HeapObject.HeapSize` | rt-thread/src/mem.c:204-225 | the payload words between the two addresses, if both headers fit |
| `HeapObject.HeapObject.constructor` | rt-thread/src/mem.c:227-257 | one free block and the closing header |
| `HeapObject.HeapObject.PlugHolesAt` | rt-thread/src/mem.c:156-194 | `plug_holes` over the header words is `PlugHoles` |
| `HeapObject.HeapObject.FindFit` | rt-thread/src/mem.c:305-312 | the search loop finds the first fit |
| `HeapObject.HeapObject.AdvanceLfree` | rt-thread/src/mem.c:380-387 | the loop moves lfree to the next free block |
| `HeapObject.HeapObject.SplitBlock` | rt-thread/src/mem.c:329-348 | writes the header of the rest and links it in |
| `HeapObject.HeapObject.UseBlock` | rt-thread/src/mem.c:343-387 | marks the block, counts it, updates the maximum and lfree |
| `HeapObject.HeapObject.MallocBytes` | rt-thread/src/mem.c:272-410 | `rt_malloc` over the header words is `Malloc` |
| `HeapObject.HeapObject.FreePayload` | rt-thread/src/mem.c:546-609 | `rt_free` is `Free` for a live block and does nothing for null or an address behind the heap |
| `HeapObject.HeapObject.ShrinkBlock` | rt-thread/src/mem.c:471-498 | the in-place branch is `Shrink` |
| `HeapObject.HeapObject.MoveBlock` | rt-thread/src/mem.c:499-510 | the moving branch is malloc, copy of the smaller size, free |
| `HeapObject.HeapObject.ReallocPayload` | rt-thread/src/mem.c:421-510 | `rt_realloc` in all its cases: too large, zero, null, behind the heap, resize; what a resize answers is in `HeapAnswers.ReallocAnswer` |
| `HeapObject.ReallocContract` | rt-thread/src/mem.c:421-510 | on success a live block with room for the request that starts with the first min(old, new) words; on failure an unchanged heap |
| `HeapObject.ReallocKeepsOthers` | rt-thread/src/mem.c:421-510 | all other live blocks stay as they are, whether the block is freed, resized or moved |
| `HeapObject.HeapObject.MallocAligned` | rt-thread/src/kservice.c:1229-1264 | for a power of two the returned region is aligned and lies, with its back-pointer word, inside the block; failure changes nothing |
| `HeapObject.HeapObject.FreeAligned` | rt-thread/src/kservice.c:1273-1279 | frees the block the back pointer names |
| `Alignment.NextMultiple` | rt-thread/src/kservice.c:1249-1256 | the masks find the next multiple strictly above the address, at most one alignment away |
| `Alignment.Masks` | rt-thread/src/kservice.c:1237-1256 | for a power of two, `& (a - 1)` is the remainder and `& ~(a - 1)` rounds down |
| `HeapAnswers.ReallocAnswer` | rt-thread/src/mem.c:447-510 | for a live block and a nonzero size: null exactly when the block has neither the room asked for nor a header and a minimum block more than that, and the request exceeds the heap or no free block from lfree on lies below the bound and has room; the old address exactly when the block can stay; otherwise the lowest such free block |
| `HeapAnswers.ReallocRoom` | rt-thread/src/mem.c:447-510 | on null nothing changes; a block that stays has exactly the room asked for; a block that moves leaves its old place and gets at least that room |
| `HeapAnswers.MallocAnswer` | rt-thread/src/mem.c:272-410 | null exactly when the request exceeds the heap or there is no such free block; otherwise the lowest one, cut to the request exactly when a header and a minimum block are left over; sizes are whole words and at least 12 bytes |
| `JsonRoundTrip.ParsePrint` | packages/cJSON-latest/cJSON.c:102-664 | parsing the printed text of any printable tree, formatted or not, at any depth, gives the same tree and stops exactly at its end |
| `JsonRoundTrip.PrintInjective` | packages/cJSON-latest/cJSON.c:102-664 | different trees print differently |
| `JsonRoundTrip.ParsesNumber` | packages/cJSON-latest/cJSON.c:102-121 | the printed form of a 32-bit integer reads back as that number |
| `JsonRoundTrip.ParsesString` | packages/cJSON-latest/cJSON.c:198-313 | the quoted form of a NUL-free string reads back as that string |
| `JsonParse.SkipSpace` | packages/cJSON-latest/cJSON.c:326 | the loop of `skip` |
| `JsonParse.NumberAt` | packages/cJSON-latest/cJSON.c:102-121 | `parse_number` with its digit loops is `ParseNumber` |
| `JsonParse.StringAt` | packages/cJSON-latest/cJSON.c:198-255 | the decoding loop of `parse_string` is `ParseString`, on every text |
| `JsonString.CountSuffices` | packages/cJSON-latest/cJSON.c:200-210 | where every escape is complete, both passes stop at the same place and the decoded text fits into what the first pass counted |
| `JsonString.DecodeString` | packages/cJSON-latest/cJSON.c:198-255 | both passes with the buffer: every write lies inside the size counted, and the terminated buffer is what `ParseString` says |
| `JsonString.CountPass` | packages/cJSON-latest/cJSON.c:203 | the counting loop |
| `JsonString.DecodeEscape` | packages/cJSON-latest/cJSON.c:213-248 | the switch on the character behind a backslash |
| `JsonString.EncodeUtf8` | packages/cJSON-latest/cJSON.c:238-245 | the bytes of a code point, found from the last one back |
| `JsonString.PrintedWellFormed` | packages/cJSON-latest/cJSON.c:258-313 | printed strings have complete escapes |
| `JsonParse.ValueAt` | packages/cJSON-latest/cJSON.c:363-375 | `parse_value` is `ParseValue` |
| `JsonParse.ArrayAt` | packages/cJSON-latest/cJSON.c:412-437 | `parse_array` is the bracket case of `ParseValue` |
| `JsonParse.ItemsFrom` | packages/cJSON-latest/cJSON.c:426-436 | its loop appends what the recursive specification finds |
| `JsonParse.ObjectAt` | packages/cJSON-latest/cJSON.c:520-553 | `parse_object` is the brace case of `ParseValue` |
| `JsonParse.MembersFrom` | packages/cJSON-latest/cJSON.c:538-552 | its loop appends what the recursive specification finds |
| `JsonParse.ParseText` | packages/cJSON-latest/cJSON.c:329-345 | with the option set, nothing but white space may follow the value |
| `JsonParse.ParsePrinted` | packages/cJSON-latest/cJSON.c:102-664 | the parser as loops, run on printed text, returns the printed tree and its end |
| `JsonGrammar.ParsesEveryDocument` | packages/cJSON-latest/cJSON.c:102-553 | every text of the grammar of RFC 8259, with any white space, escapes, surrogate pairs, fractions and exponents, is read as its value, and the parse stops behind it |
| `JsonGrammar.OneMeaning` | packages/cJSON-latest/cJSON.c:329-345 | so a text has one value |
| `JsonGrammar.ReadsNumber` | packages/cJSON-latest/cJSON.c:102-121 | sign, integer part, fraction and exponent give the number they spell |
| `JsonGrammar.ReadsEscape` | packages/cJSON-latest/cJSON.c:213-248 | each escape is read as the byte or the UTF-8 bytes of the code point it stands for; surrogate pairs are joined |
| `JsonGrammar.Utf8Decodes` | packages/cJSON-latest/cJSON.c:236-245 | the bytes written for a code point are its shortest UTF-8 form, and the only one |
| `JsonGrammar.Hex4Reads` | packages/cJSON-latest/cJSON.c:183-195 | four hexadecimal digits in either case give their value |
| `JsonGrammar.SkipStops` | packages/cJSON-latest/cJSON.c:326 | `skip` passes exactly the bytes from 1 to 32 |
| `JsonAccepts.AcceptsExactly` | packages/cJSON-latest/cJSON.c:318-553 | on every text the parser returns a value if and only if the text has the lenient form: brackets, braces, commas, colons and white space where they belong, tokens as `ParseString` and `ParseNumber` read them |
| `JsonAccepts.RejectsExactly` | packages/cJSON-latest/cJSON.c:318-553 | and it fails exactly when no value of that form starts there |
| `JsonPrint.RenderNulFree` | packages/cJSON-latest/cJSON.c:258-664 | the text of a printable tree is a C string |
| `JsonPrint.EscapedLength` | packages/cJSON-latest/cJSON.c:285 | the counting pass is exact |
| `JsonPrint.QuotedSize` | packages/cJSON-latest/cJSON.c:262-289 | the size asked for is the quoted text and its terminator |
| `JsonPrint.WriteQuoted` | packages/cJSON-latest/cJSON.c:268-312 | writes the quoted text and its terminator inside that size |
| `JsonPrint.DecimalLength` | packages/cJSON-latest/cJSON.c:153-181 | a 32-bit integer needs at most eleven characters |
| `JsonPrint.Print` | packages/cJSON-latest/cJSON.c:378-409 | the allocating `print_value` returns a fresh C string that is `Render` |
| `JsonPrint.ItemsSize` | packages/cJSON-latest/cJSON.c:482-492 | the size computed for an array |
| `JsonPrint.PrintArray` | packages/cJSON-latest/cJSON.c:440-517 | every write is inside that size, and the text is `Render` |
| `JsonPrint.MembersSize` | packages/cJSON-latest/cJSON.c:622-633 | the size computed for an object |
| `JsonPrint.PrintObject` | packages/cJSON-latest/cJSON.c:556-664 | every write is inside that size, and the text is `Render` |
| `Pow2.RoundUp` | packages/cJSON-latest/cJSON.c:123 | `pow2gt`: the smallest power of two that is large enough |
| `JsonBuffer.PrintBuffer.Ensure` | packages/cJSON-latest/cJSON.c:127-142 | room at the offset, with the text before it kept |
| `JsonBuffer.PrintBuffer.Update` | packages/cJSON-latest/cJSON.c:144-150 | the offset moves exactly behind the text printed last |
| `JsonBuffer.PrintBuffer.PrintString` | packages/cJSON-latest/cJSON.c:258-313 | the quoted text behind the text written so far |
| `JsonBuffer.PrintBuffer.PrintValue` | packages/cJSON-latest/cJSON.c:378-409 | with a buffer: `Render` and a terminator behind the text written so far, every write inside the buffer; the returned pointer is the start of the text unless a formatted object overwrites it |
| `JsonBuffer.PrintBuffer.PrintArray` | packages/cJSON-latest/cJSON.c:440-477 | the same for arrays, item by item |
| `JsonBuffer.PrintBuffer.PrintObject` | packages/cJSON-latest/cJSON.c:556-613 | the same for objects, member by member |
| `JsonBuffer.PrintBuffered` | packages/cJSON-latest/cJSON.c:351-359 | for every initial size of at least one the result is `Render`, and the returned pointer is the start of the buffer |
| `JsonBuffer.BothPrinters` | packages/cJSON-latest/cJSON.c:348-359 | the allocating and the buffered printer give the same C string, and it parses back to the tree |
| `JsonMinify.MinifyPrint` | packages/cJSON-latest/cJSON.c:741-756 | minifying the formatted text of any tree gives its unformatted text, and minifying that changes nothing |
| `MinifyTokens.MinifyDropsComments` | packages/cJSON-latest/cJSON.c:741-756 | any text of tokens: white space, line comments and block comments are dropped, string literals with their escapes and all other characters are kept as they are |
| `JsonMinify.MinifyInPlace` | packages/cJSON-latest/cJSON.c:741-756 | the loop, in place and never writing ahead of its reading, leaves `Minify` of the text and touches nothing behind the terminator |
| `JsonMinify.CopyLiteral` | packages/cJSON-latest/cJSON.c:752 | copies a string literal, escapes included; it reports one that does not end |
| `JsonMinify.SkipBlock` | packages/cJSON-latest/cJSON.c:751 | passes a block comment; it reports one that does not end |
| `Bytes.ScanDigits` | rt-thread/src/kservice.c:588-595 | the digit loop of `skip_atoi`, and of the number parser, reads what `ReadDigits` says |
| `Printf.Vsnprintf` | rt-thread/src/kservice.c:777-1040 | for every format and matching arguments and every size n: returns the unbounded length; n > 0 leaves the first min(length, n - 1) bytes of the unbounded output and NUL; nothing behind the n bytes is written |
| `Printf.PrintNumber` | rt-thread/src/kservice.c:606-775 | `print_number` prints sign, padding, zeros and digits as `NumberField` says |
| `Printf.FillDigits` | rt-thread/src/kservice.c:676-683 | the digit loop stays inside its 16 bytes and yields the numeral reversed |
| `Printf.PrintChar` | rt-thread/src/kservice.c:890-911 | `%c` with its padding |
| `Printf.PrintString` | rt-thread/src/kservice.c:913-943 | `%s` with precision and padding |
| `Printf.ScanConversion` | rt-thread/src/kservice.c:820-883 | flags, width, precision and qualifier are read as the specification reads them |
| `Printf.PrintConversion` | rt-thread/src/kservice.c:888-1024 | the switch on the conversion letter |
| `Printf.Terminate` | rt-thread/src/kservice.c:1027-1034 | the terminator goes behind the text or over its last byte that fits |
| `PrintfFields.NumberFieldLayout` | rt-thread/src/kservice.c:618-775 | for every number, flag, width and nonzero precision: blanks, sign, digits, blanks; the digits spell the number in its base and letters; the field is as wide as asked unless the number needs more; the blanks are behind the number exactly with `-`, in front only without `-` and `0`; extra zeros come from the precision or the flag `0` |
| `PrintfFields.StringFieldLayout` | rt-thread/src/kservice.c:913-943 | the string, cut to a nonzero precision, with blanks up to the width on the side the flag says |
| `PrintfFields.CharFieldLayout` | rt-thread/src/kservice.c:890-911 | the character with blanks up to the width on the side the flag says |
| `PrintfFields.DirectiveRead` | rt-thread/src/kservice.c:820-883 | flags in any order, width, precision and qualifier are read as written |
| `PrintfTheorems.FormatDecimal` | rt-thread/src/kservice.c:606-775 | `%d` prints every 32-bit integer in decimal |
| `PrintfTheorems.FormatPath` | rt-thread/src/kservice.c:777-1040 | `%s/%s` prints two strings with a slash between them |
| `WebPathTheorems.NormalizeAbsolute` | module/web/web_utils.c:54-114 | an absolute path that never climbs above the root becomes the path of its segment stack, which has no empty, `.` or `..` segment |
| `WebPathTheorems.NormalizedSegments` | module/web/web_utils.c:54-114 | the segments of the result are that stack, so there is no trailing slash |
| `WebPathTheorems.NormalizeIdempotent` | module/web/web_utils.c:54-114 | normalising twice changes nothing more |
| `WebPathTheorems.StaysAbsolute` | module/web/web_utils.c:99-103 | the result is an absolute path exactly when no `..` climbs above the root |
| `WebPathTheorems.SamePlace` | module/web/web_utils.c:54-114 | two such paths normalise alike exactly when their stacks are equal |
| `WebPathTheorems.NormalizeOutcome` | module/web/web_utils.c:54-114 | what becomes of every path, absolute or relative, said from its segments: it is rejected exactly when some `..` finds no entry to remove, the code reads in front of its buffer exactly when no entry is left, and otherwise the entries are written out |
| `WebPathTheorems.ClimbingPaths` | module/web/web_utils.c:99-111 | `/..` leaves nothing and the code reads in front of its buffer; `/../a` comes out relative; `..` is rejected |
| `WebPath.NormalizeInPlace` | module/web/web_utils.c:54-114 | the loop, in place and never writing ahead of its reading, leaves `Normalize` of the path; on rejection the buffer keeps a string of the old length, and an empty result is an empty string |
| `WebPath.UpOne` | module/web/web_utils.c:99-103 | the backward scan removes exactly the last finished segment |
| `WebPath.RelativeToAbsolute` | module/web/web_utils.c:133-146 | refuses a buffer that is too small and leaves it alone; otherwise prefix, slash and path normalised, or the remnant of a rejected path, still terminated |

## Left out

- The `-RT_EINTR` retry of the mutex: signals are not enabled in this configuration.
- Thread, timer and scheduler: resume takes a thread off its list and stops its timer, a timeout takes it off with `-RT_ETIMEOUT`, the priority control sets the current priority. Which runnable thread goes next is left open, so the theorems hold for every schedule. Elapsed ticks are a parameter of the step in which a thread runs on.
- Creating, detaching and deleting kernel objects, hooks, debug output, semaphores, SMP code: they would add easy members.
- `rt_mutex_control` does nothing in the source and is not modelled.
- Event masks are sets of bit numbers below 32; the machine's `&`, `|` and `& ~` are intersection, union and difference.
- Event.EventObject.RecvEvent: an option with neither AND nor OR is an assertion failure in the source and is not modelled.
- Mutex.EveryRunOwnership: runs exclude the 256th nested take, where the 8-bit hold count wraps; Mutex.TakeSound states this boundary.
- The heap counts in words of 4 bytes, the alignment of this target and the unit to which both sizes are rounded before a copy; request sizes that wrap in `RT_ALIGN` and heaps smaller than one minimum block are not modelled.
- HeapObject.HeapObject.FreePayload: specified for null, addresses behind the heap and live blocks; the source asserts on other addresses inside the heap, and treats one below it like one behind it.
- HeapObject.HeapObject.ReallocPayload: the same; the source does not check that an address inside the heap is a live block's.
- The statistics commands `rt_memory_info`, `list_mem` and `memcheck`, and `rt_calloc`: reading out or clearing only.
- JSON numbers that are not 32-bit integers are printed with `%.2f` or `%e` and lose digits; they are not printed here. Parsing computes them in real arithmetic without rounding.
- Strings with NUL bytes, failed allocations, and escapes that run past the end of the text are not modelled.
- JsonString.DecodeString: literals with a quote, a backslash or their end within the four bytes behind a `\u` are left out, as malformed escapes.
- The tree is a value; the links between sibling nodes, and the functions that build, change, copy and delete trees, are not modelled.
- JsonBuffer.PrintBuffered: the text and 21 bytes must fit into 2^30 bytes, the largest size that `pow2gt` rounds up without overflow.
- Printf.Vsnprintf: the arguments must be those the format asks for, widths and precisions are not reduced to 32 bits, and the check for a buffer that wraps around the address space is left out. 64-bit and `#` output are compiled out in the source.
- WebPath.NormalizeInPlace: it reports the read in front of the buffer; what that read finds, and the write that may follow it, are not modelled.
- WebPath.RelativeToAbsolute: the source ignores a rejected path and returns success; which bytes of the path the buffer then still holds is left open, only that it is terminated at the old length.
- Drivers, sensors, display, network services, base64 and the build scripts.
