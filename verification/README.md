# A model of the Xen paravirtual drivers for Windows

These Dafny modules model the parts of the drivers that other parts rely on without looking: the
block datapath of `scsifilt`, the shared-memory ring protocols under `inc/`, the receive buffer
manager of the network driver, and four small pieces with delicate arguments (a lock-free circular
buffer, a reader/writer spin lock, the UTF-8 converter and the Internet checksum). What the source
asserts at run time, or claims in a comment, is stated here as a theorem over every run.

`dafny verify dfyconfig.toml` verifies the whole project.

## How the model is organised

**Block datapath.** A SCSI request block is split into requests of at most eleven page segments
(`SrbSplit`; `Bounce` adds the copies through bounce buffers, `SrbTransfer` gives the effect of
a whole read or write from the request block alone, and `SrbRequests` says what the requests that are
queued have to do with it), queued in a two-list
elevator (`Elevator`; on the linked list heap `ScheduleLists`), granted, put on a shared ring,
answered in any order, completed in a DPC and counted back into one IRP. `Datapath` gives every
critical section of the ring lock as a function on a device state; `DatapathSafety` gives the
invariant, the steps (front end, back end, power, suspend, reconnect, replay) and the assertions of
the source; `DatapathSteps` shows that each step keeps the invariant and that no assertion fires;
`DatapathRuns` draws the conclusions for whole runs, `DatapathDrain` those for a pause and
`DatapathEmpty` those for a transfer of no sectors, and `DatapathExamples` holds two concrete runs.
`DatapathResults` follows every result from the back end's answer, or the abort, to the IRP;
`DatapathOutcomes` says from that how IRPs end, and `SrbRuns` what the back end was asked to do for a
request block. `Scsifilt` is the same code as an object with loops and
counters, each method proved equal to its function in `Datapath`; its `FilterProcessIrp` goes from the
request block through the split to the submission.

**Rings.** `RingIndex` is the index arithmetic modulo 2^32 and the masking of slots, `SharedRing`
reads the slot array as two queues, `Handshake` is the publish/threshold protocol with every access
to shared memory a step of its own, and `RingProtocol` instantiates it for both directions of a
ring. `Nc2Ring`, `Nc2Protocol` and `Nc2RingPair` treat the byte ring of `inc/vring.h`, and `V2vMessages`
the messages that v2v channels send over it; `V4vRing` and `V4vReader` the receive ring of `inc/v4v.h`. Memory barriers are modelled as sequential consistency.

**Receive buffers.** `RxShadows` and `Receiver`. The free list threaded through the shadow array,
the cache of buffers, the ring and the grant reserve are one object; its `Valid` holds between calls
in every order, with two further methods standing for the back end.

**Small pieces.** `Circle`, `MrswLock`, `Utf8`, `Checksum`. `Circle` and `MrswLock` are step systems
whose steps are single memory accesses; `Utf8` and `Checksum` relate the code to the standards.
`Bits`, `Bytes`, `Numbers`, `Measures`, `Blkif` and `Wrappers` hold what several modules share.

## Where the code does less than its comments say

* The reserve of the grant cache does not always cover the ring: whenever a connect gets as far as
  `grant_ring`, whether it succeeds in the end or not, the assertion there holds if and only if the
  segments of the requests that wait for replay and the ring pages fit what the cache supplies
  (`DatapathRuns.EveryAssertion`), and a run exists in which they do not
  (`DatapathExamples.RingNotCovered`). The other assertions of the datapath that the model has hold in
  every run: those on the state of a request when it is scheduled, started, answered, replayed, aborted
  and completed, on the in-flight and replay counts, and on the status of an IRP. Not among them are
  those on the outcome of ending a grant (`scsifilt/rings.c:64`, `scsifilt/rings.c:98`), which is up to
  the other domain, the ones on a request fresh from the pool (`scsifilt/datapath.c:415`) and on the
  ring order (`scsifilt/controlpath.c:363`), and pointer and interrupt-level checks.
* A pause does not stop the DPC from starting requests while earlier ones drain
  (`scsifilt/rings.c:237-248`, against the comment at `scsifilt/scsifilt.h:298-302`). A paused DPC step
  puts a request on the ring if and only if one is queued and can be granted
  (`DatapathDrain.DpcStartsIff`); a completed drain puts out exactly what was queued, so nothing if and
  only if nothing was (`DatapathDrain.DrainPutsQueue`); `DatapathExamples.PausedStarts` is such a run.
* A transfer of no sectors that starts inside a page is counted as one request and split into none
  (`SrbSplit.SplitSrb`, `SrbSplit.EmptyTransferMiscounted`), which stops the machine
  (`Scsifilt.Device.FilterProcessIrp`); one that starts on a page is submitted with no requests and never
  completed, whatever follows (`DatapathEmpty.EmptySubmitHangs`).
* The one-byte sector fields of a segment are too narrow for sectors of less than 16 bytes
  (`SrbSplit.SplitSrb`, `SrbSplit.ByteFieldsTooNarrow`).
* `nc2_can_send_payload_bytes` adds message and pad in 16 bits; messages of 32768 bytes and more can
  be let through without space (`Nc2Ring.NeededIffShort`, `Nc2Ring.LargeMessageOverrun`).
* The four bytes of a pad's header lie inside the payload area if and only if the pad has four bytes,
  which sizes that are multiples of four ensure (`Nc2Ring.PadHeaderFitsIff`, `Nc2Protocol.PadsFit`,
  `Nc2Ring.OddSizeOverruns`).
* `v2v_nc2_prep_message` keeps sizes in 16 bits: a message whose rounded size is 64K, which a ring of that
  size does not refuse, is given a size of zero (`V2vMessages.PreparedIff`, `V2vMessages.FullRingMessage`).
* The v4v ring must be a multiple of 16 bytes long, not 8 (`inc/v4v.h:142`, `inc/v4v.h:435`): exactly
  then no run meets a header that is not in one piece (`V4vRing.HeadersInPlaceIff`,
  `V4vRing.MisplacedHeader`).
* Four-byte UTF-8 forms of U+1000 to U+FFFF are accepted (`Utf8.CharIff`, `Utf8.OverlongAccepted`).
* A failed page allocation leaves the count of RFDs one short (`Receiver.CountExactIff`,
  `Receiver.PageFailureExample`), and of two segmentation prefixes in one packet the first is lost
  (`Receiver.NoneLost`, `Receiver.TwoPrefixesLoseOne`).
* 2^31 readers turn the reader/writer lock's word into the writer flag (`MrswLock.ReaderTooMany`,
  `MrswLock.TooManyReaders`).

## Model

| member | source | states |
|---|---|---|
| `DatapathRuns.EveryRun` | scsifilt/rings.c:140-268 | In every run of submit, DPC, completion, back-end, power, suspend, reconnect (successful or not), replay and abort steps, every state satisfies the invariant and the state and count assertions at the steps taken hold; a step at which grant_ring's fails ends a run. |
| `DatapathRuns.EveryAssertion` | scsifilt/controlpath.c:87-108 | Whatever step comes next in a run, its state and count assertions hold; at every step that calls grant_ring, whether the connect then succeeds or fails, the assertion there holds if and only if the segments waiting for replay and the ring pages fit what the cache supplies; always if nothing waits. |
| `DatapathRuns.OnePlaceEach` | scsifilt/rings.c:389-469 | In every state of every run each accepted request is on exactly one of the schedule, the in-flight list, the replay list and the completed list, in the state of that list, or was finished; never lost, never finished twice; the counters are the lengths of the lists. |
| `DatapathRuns.NoStall` | scsifilt/rings.c:281-318 | In every run, whenever the device is unpaused and the lock is free, queued requests imply requests in flight, and all that is in flight is published. |
| `DatapathRuns.RingWindow` | inc/ring.h:208-218 | While connected the distance between the request producer and the response consumer, modulo 2^32, is the number of requests in flight, and at most the ring size. |
| `DatapathRuns.IrpCompletedOnce` | scsifilt/datapath.c:565-647 | Every IRP is completed exactly once, when its last request finishes; it succeeds if and only if every one of its requests was finished with OKAY, and then Information is its number of sectors times the sector size. |
| `DatapathResults.ResultIsLast` | scsifilt/rings.c:219-235 | In every run the result a request is finished with is the last one given to it: the status of the back end's last answer for it, or an error if it was aborted. |
| `DatapathResults.EverySourced` | scsifilt/rings.c:205-235 | In every state of every run the same holds of every response on the ring and of every result recorded for a request handed over, and no request has been accepted twice. |
| `DatapathOutcomes.IrpOutcome` | scsifilt/datapath.c:584-629 | In every run an IRP is pending as long as one of its requests is on a list; it is completed once, and is then a success if and only if the last result given to each of its requests, by an answer or an abort, is OKAY. |
| `DatapathOutcomes.SubmittedAnswers` | scsifilt/datapath.c:525-536 | The same in terms of the requests the IRP was submitted with. |
| `DatapathOutcomes.AbortedNeverSucceeds` | scsifilt/rings.c:501-509 | In every run, an IRP with a request that was aborted is never a success. |
| `DatapathOutcomes.AcceptedOnce` | scsifilt/datapath.c:409-420 | In every run no request is accepted twice. |
| `DatapathOutcomes.SubmissionServed` | scsifilt/rings.c:112-127 | In every run, what the back end takes off the ring for an IRP is one of the requests it was submitted with, and if the IRP succeeds every one of them was taken and then answered with OKAY. |
| `SrbRuns.SrbServed` | scsifilt/rings.c:104-127 | In every run, for an SRB whose sector numbers fit a byte: whatever the back end takes off the ring for its IRP goes in the SRB's direction and moves only sectors the SRB asks for, between their places on disk and in memory; if the IRP succeeds each of these moves was carried out by a request that was taken and answered with OKAY. |
| `DatapathRuns.SrbInformation` | scsifilt/datapath.c:584-600 | In every run, an IRP that has succeeded reports the sectors times the sector size it was submitted for, and has transferred as many bytes. |
| `DatapathEmpty.EmptySubmitHangs` | scsifilt/datapath.c:525-536 | An IRP submitted with no requests is pending, never completed and without a request in every state of everything that can follow. |
| `DatapathRuns.PausedWhenUnusable` | scsifilt/controlpath.c:490-539 | The pause count is positive whenever the device is suspended, powered off, not connected, or has requests to replay. |
| `DatapathRuns.PauseBalance` | scsifilt/rings.c:339-377 | In every run the pause count is one more than the pauses less the unpauses so far. |
| `DatapathRuns.QuiescentStep` | scsifilt/rings.c:192-199 | Paused with nothing in flight, no step but an unpause changes the request indices or puts anything in flight. |
| `DatapathRuns.QuiescenceIsStable` | scsifilt/rings.c:339-377 | Over any stretch of a run without an unpause, a quiescent device stays quiescent. |
| `DatapathRuns.RingResetIsQuiet` | scsifilt/controlpath.c:425-433 | Rings are set up and torn down only in quiescent states. |
| `DatapathExamples.RingNotCovered` | scsifilt/controlpath.c:340-346 | A run with 22 segments to replay and a reserve of 12, at whose next step grant_ring's assertion fails, on the way to success as on the way to failure. |
| `DatapathDrain.DpcStartsIff` | scsifilt/rings.c:237-248 | A step of the DPC, paused or not, puts a request on the ring if and only if one is queued and the first can be granted with what the response gives back. |
| `DatapathDrain.DrainEmptiesQueue` | scsifilt/rings.c:339-362 | Over any drain in any run, what is put on the ring comes out of the queue; when nothing is in flight any more the queue is empty. |
| `DatapathDrain.DrainPutsQueue` | scsifilt/rings.c:339-362 | A completed drain puts out exactly the requests queued at the pause and those that arrived since; none if and only if there were none. |
| `DatapathExamples.PausedStarts` | scsifilt/rings.c:237-248 | A run in which a paused device puts a request on the ring. |
| `DatapathSteps.NoAssertionFires` | scsifilt/rings.c:140-161 | In every state that satisfies the invariant, the assertions at every enabled step hold: requests are queued when started, initialised when scheduled, submitted when answered, replayed or aborted, processed when completed, and counted right. |
| `DatapathSteps.StepKeepsInv` | scsifilt/rings.c:163-268 | Every step keeps the invariant. |
| `DatapathSteps.SubmitKeeps` | scsifilt/datapath.c:525-537 | Submitting an IRP keeps lists, books, ring, grants and progress right. |
| `DatapathSteps.DpcTakeKeeps` | scsifilt/rings.c:205-249 | One response taken, and the next request started, keeps them; the ring is never overfull although its fullness is not looked at. |
| `DatapathSteps.FinishKeeps` | scsifilt/datapath.c:584-630 | Finishing a request keeps every account of every IRP. |
| `DatapathSteps.CompleteRight` | scsifilt/datapath.c:584-629 | The IRP's status, byte count and outstanding count after a completion are those the finished requests call for. |
| `DatapathSteps.RescueKeeps` | scsifilt/controlpath.c:490-514 | Moving everything in flight to the replay list loses and duplicates nothing. |
| `DatapathSteps.ReplayAllKeeps` | scsifilt/rings.c:432-469 | Replay queues every rescued request again, ungranted, and keeps the invariant. |
| `DatapathSteps.ConnectKeeps` | scsifilt/controlpath.c:425-433 | Connecting a fresh ring and replaying keeps it; afterwards nothing waits for replay and the only grants are those of the new ring's pages. |
| `DatapathSteps.UnpauseKeeps` | scsifilt/rings.c:364-377 | So does unpausing, which leaves something in flight if anything is queued. |
| `DatapathSteps.AbortKeeps` | scsifilt/rings.c:473-517 | Aborting what waits for replay keeps the invariant. |
| `DatapathResults.AbortResults` | scsifilt/rings.c:499-509 | It hands exactly the requests that waited for replay over, in order and behind those there already, each with the result ERROR, which is not OKAY; results recorded before stay. |
| `DatapathResults.TakeDone` | scsifilt/rings.c:219-235 | A response taken hands its request over, behind those there already, and records the status of the response for it; nothing else is recorded or finished. |
| `DatapathSafety.StartAllKeeps` | scsifilt/rings.c:303-311 | The starting loop moves requests from schedule to ring, one grant per segment, and keeps lists, ring and grants. |
| `DatapathSafety.ExhaustedMoves` | scsifilt/rings.c:68-101 | If the head of the schedule cannot be granted within the reserve, some request is in flight. |
| `DatapathSafety.StartRequestsKeeps` | scsifilt/rings.c:281-318 | After start_requests the invariant holds, including progress. |
| `DatapathSafety.BooksKept` | scsifilt/datapath.c:565-630 | Moving requests between lists leaves the accounts of all IRPs right. |
| `Scsifilt.Device.PrepareRequest` | scsifilt/rings.c:68-101 | Succeeds if and only if a grant can be had for every segment, if any; on failure every grant taken is given back. |
| `Scsifilt.Device.StartThisRequest` | scsifilt/rings.c:140-161 | Refines `StartOne`, or changes nothing if the request cannot be granted; its assertion holds. |
| `Scsifilt.Device.StartRequests` | scsifilt/rings.c:281-318 | The loop refines `Datapath.StartRequests`. |
| `Scsifilt.Device.ScheduleRequests` | scsifilt/rings.c:320-337 | Queues the whole list in order and starts what can be started. |
| `Scsifilt.Device.AllocateRequests` | scsifilt/datapath.c:85-101 | All or nothing: on failure cur_outstanding is what it was. |
| `Scsifilt.Device.FilterProcessIrp` | scsifilt/datapath.c:490-537 | From any SRB: the IRP is refused, with the state and cur_outstanding unchanged, exactly if the pool or the bounce buffers do not suffice for the counted requests; the assertion on the count stops the machine exactly if there are no sectors and the buffer, not bounced, does not start on a page; else the state is that of submitting requests as many as were counted, with one to eleven segments each, in the SRB's direction, covering its sectors on disk from first to last without a gap, with sectors times sector size bytes between them, and moving each sector to or from its place in memory. |
| `Scsifilt.Device.ProcessResponse` | scsifilt/rings.c:205-249 | One iteration refines `DpcTake`; its assertion holds, the request of the oldest response is handed over, and the result recorded for it is the status of that response. |
| `Scsifilt.Device.HandleDpc` | scsifilt/rings.c:163-268 | With the back end running between any two iterations: keeps the invariant, hands over the request of every response published at the start, first and in ring order and with the status of its response, and leaves no published response. |
| `Scsifilt.Device.CompleteThisRequest` | scsifilt/datapath.c:565-630 | Finishes the first completed request with the result recorded for it, releases it, and keeps the invariant. |
| `Scsifilt.Device.FinishRequests` | scsifilt/datapath.c:633-647 | Finishes exactly the requests handed to it, in order, each with the result recorded for it. |
| `Scsifilt.Device.EarlySuspend` | scsifilt/controlpath.c:490-514 | Keeps the invariant and every request: nothing is in flight, and what was waits for replay behind what waited already. |
| `Scsifilt.Device.NoticeDehibernated` | scsifilt/rings.c:389-430 | The same, without marking the device suspended. |
| `Scsifilt.Device.ReplayPendingRequests` | scsifilt/rings.c:432-469 | The loop refines `ReplayAll`. |
| `Scsifilt.Device.AbortPendingRequests` | scsifilt/rings.c:473-517 | The loop refines `AbortAll`: every request that waited for replay is handed over, in order, with an error. |
| `Scsifilt.Device.UnpauseDatapath` | scsifilt/rings.c:364-377 | Refines `Unpause`. |
| `Elevator.ServiceOrderIsRotation` | scsifilt/schedule.c:36-54 | The two lists in order of service are a rotation of one sorted list. |
| `Elevator.EnqueueSweeps` | scsifilt/schedule.c:56-110 | Enqueueing keeps both lists sorted and everything in the next sweep below the head of the current one. |
| `Elevator.EnqueueContents` | scsifilt/schedule.c:56-110 | Enqueueing adds exactly the request. |
| `Elevator.EnqueueIsLast` | scsifilt/schedule.c:56-110 | Among requests with the same start sector the new one is served last. |
| `Elevator.DequeueSweeps` | scsifilt/schedule.c:36-54 | Dispatching keeps the order, and what is left of the sweep does not start before what was dispatched. |
| `Elevator.EveryRun` | scsifilt/schedule.c:36-110 | In every run, dispatch within a sweep never goes backwards, and requests with equal start sectors leave in arrival order. |
| `ScheduleLists.Splice` | inc/scsiboot.h:383-400 | On the heap: the list followed by the sublist, as one closed doubly linked list. |
| `ScheduleLists.Transplant` | inc/scsiboot.h:404-410 | All elements move in order, and the source is empty. |
| `ScheduleLists.InsertInOrder` | scsifilt/schedule.c:93-110 | The insertion loop yields the list with the request at its sorted position, after its equals. |
| `ScheduleLists.Scheduler.GetNextRequest` | scsifilt/schedule.c:36-54 | Returns the head of the current sweep, after exchanging the lists if it was empty. |
| `ScheduleLists.Scheduler.RemoveNext` | scsifilt/rings.c:152-153 | Unlinking the head and decrementing the counter is `Dequeue`. |
| `ScheduleLists.Scheduler.EnqueueRequest` | scsifilt/schedule.c:56-110 | The list code is `Enqueue`, and nr_scheduled stays the two lengths. |
| `SrbSplit.InitialiseDirect` | scsifilt/datapath.c:263-307 | At most eleven segments, which describe the requested sectors of the buffer in order. |
| `SrbSplit.InitialiseBounce` | scsifilt/datapath.c:234-256 | The same for the sectors of the bounce buffer. |
| `SrbSplit.InitialiseRequests` | scsifilt/datapath.c:376-452 | The requests together map disk sectors start..start+n one to one and in order onto the buffer, with n sectors' bytes in all; it fails only if bounce buffers run out. |
| `SrbSplit.CountIsGroups` | scsifilt/datapath.c:457-484 | The count is the number of groups of eleven pages that the transfer touches. |
| `SrbSplit.SplitSrb` | scsifilt/datapath.c:316-453 | On any SRB: fails exactly if bounce buffers are needed and too few; uses exactly the counted requests if and only if there are sectors, or the buffer is bounced or page aligned; describes the transfer if and only if its sector numbers within a page fit a byte. |
| `SrbSplit.EmptyTransferMiscounted` | scsifilt/datapath.c:471-483 | A transfer of no sectors for which they differ. |
| `SrbSplit.ByteFieldsTooNarrow` | scsifilt/datapath.c:244-245 | A sector size for which they do not. |
| `SrbSplit.BouncedIffUnaligned` | scsifilt/datapath.c:379-385 | The mask decides whether the buffer is a multiple of the sector size. |
| `SrbSplit.PageBacks` | scsifilt/datapath.c:130-137 | Page k of the buffer backs the addresses from its own start up to the next page. |
| `SrbRequests.SplitImplements` | scsifilt/datapath.c:412-420 | The requests filled in from a split start on disk where the SRB does, each where the one before ends, up to the SRB's last sector; direction, bytes and segments are those of the split. |
| `SrbTransfer.ReadSrb` | scsifilt/datapath.c:401-450 | A read of any SRB, direct or bounced and in whatever order its requests complete, leaves disk sector start+k in sector k of the caller's buffer, and touches no other memory. |
| `SrbTransfer.WriteSrb` | scsifilt/datapath.c:184-257 | A write of any SRB, direct or bounced, stores sector k of the caller's buffer in disk sector start+k and changes no other disk sector. |
| `Bounce.FillHolds` | scsifilt/datapath.c:229-232 | After the copies into the bounce buffers every sector is in the place its request names. |
| `Bounce.DrainHolds` | scsifilt/datapath.c:589-595 | A sector is copied out exactly when its request completes, and is otherwise untouched. |
| `RingIndex.IndexArithmetic` | inc/ring.h:42-64 | Index addition and difference undo each other modulo 2^32. |
| `RingIndex.Round32Largest` | inc/ring.h:68-73 | `__RD32` is the largest power of two not above its argument, for every non-zero word. |
| `RingIndex.SlotIsMask` | inc/ring.h:229-237 | Masking with the size less one is the remainder. |
| `RingIndex.SlotsDistinct` | inc/ring.h:229-237 | Indices less than a ring apart have different slots, across overflow too. |
| `SharedRing.PutRequestAppends` | scsifilt/rings.c:112-127 | On a ring that is not full a request is appended; no unread request or response changes. |
| `SharedRing.TakeResponseRemoves` | inc/ring.h:234-237 | Consuming a response removes the oldest one and nothing else. |
| `SharedRing.TakeRequestRemoves` | inc/ring.h:229-232 | The same for the back end's requests. |
| `SharedRing.PutResponseAppends` | inc/ring.h:234-237 | A back end that answers what it consumed overwrites nothing unread. |
| `SharedRing.PushRequestsPublishes` | inc/ring.h:243-246 | Publishing makes every queued request visible and changes no queue. |
| `SharedRing.PushResponsesPublishes` | inc/ring.h:248-251 | The same for responses. |
| `SharedRing.OutstandingSplits` | inc/ring.h:208-218 | What is outstanding is what is queued, in the back end's hands, or answered; never more than the ring. |
| `Handshake.ThresholdCrossed` | inc/ring.h:288-290 | Moving past the last index seen crosses a threshold one above it, across overflow. |
| `Handshake.CrossesIff` | inc/vring.h:107-117 | The comparison of differences tells whether the new index is at or past the threshold and the old one was before it, across overflow. |
| `Handshake.NoLostWakeup` | inc/ring.h:283-317 | For one direction, in every interleaving of publish-then-check with set-then-recheck, a sleeper with entries to consume has a notification pending or about to be sent. |
| `Handshake.NotifiedForCrossing` | inc/ring.h:283-301 | In every interleaving a notification is owed or pending only because a published stretch crossed the threshold. |
| `Handshake.SleepsIff` | inc/vring.h:334-348 | A watcher that looks twice with nothing in between goes to sleep if and only if it has seen everything. |
| `RingProtocol.FullBackEndHasNoRequests` | inc/ring.h:223-227 | The extra clause of the request macro never hides a request. |
| `RingProtocol.FinalCheckIff` | inc/ring.h:303-317 | The final check with nothing in between: a side goes to sleep if and only if it has nothing to consume. |
| `RingProtocol.NoLostWakeupOnRing` | inc/ring.h:283-317 | Both directions of a ring together: no lost wakeup in any run, and never more than the ring size outstanding. |
| `Nc2Ring.WouldWrapIff` | inc/vring.h:230-236 | The masked indices differ exactly if the message does not end before the end of the payload area. |
| `Nc2Ring.PadIsShort` | inc/vring.h:238-244 | A needed pad is at most the message, so its narrowing to 16 bits loses nothing. |
| `Nc2Ring.NeededIffShort` | inc/vring.h:363-364 | The slow path asks for message and pad if and only if their sum fits 16 bits; below 32768 it does. |
| `Nc2Ring.LargeMessageOverrun` | inc/vring.h:363-368 | A message of 40000 bytes that asks for no space. |
| `Nc2Ring.FastPathCoversPad` | inc/vring.h:360-362 | Twice the message covers message and pad. |
| `Nc2Ring.Contiguous` | inc/vring.h:246-253 | After padding the message lies in one piece. |
| `Nc2Ring.PadHeaderFitsIff` | inc/vring.h:218-228 | The header of a pad stays inside the payload area if and only if the pad has four bytes; multiples of four see to that. |
| `Nc2Ring.OddSizeOverruns` | inc/vring.h:174-181 | A size that is not a multiple of four for which it does not. |
| `Nc2Protocol.PadsFit` | inc/vring.h:246-253 | In every run with ring and messages in multiples of four, every pad of a message that may be sent has room for its header. |
| `Nc2Protocol.SendAppends` | inc/vring.h:218-253 | Pad and message are appended to the unread bytes, none of which changes; the pad has type 255, no flags and, low byte first, its own size, and fills the payload area to its end; the count of free bytes goes down by both. |
| `Nc2Protocol.ReadSpaceIff` | inc/vring.h:366-384 | Reading the consumer index lets a message through if and only if it fits with its pad; otherwise the producer goes on to set its threshold. |
| `Nc2Protocol.StepKeepsInv` | inc/vring.h:275-415 | Every step keeps the count of free bytes a lower bound, the grant honoured and both handshakes sound. |
| `Nc2Protocol.EveryRun` | inc/vring.h:275-415 | In every run: local_prod_bytes_available is at most what is free; a consumer put to sleep by the final check, and a producer refused for space, has the notification that unblocks it coming. |
| `Nc2Protocol.SentInRun` | inc/vring.h:354-378 | Whatever is sent in a run leaves every unread byte in place. |
| `Nc2Protocol.OutstandingShrinks` | inc/vring.h:392-395 | No step but a flush moves the consumer index away from the published producer index; every change moves it closer. |
| `Nc2Protocol.RetriesBounded` | inc/vring.h:365-395 | In every run, between two flushes the consumer index changes at most as often as bytes were published, at most the ring size. |
| `Nc2RingPair.RingPair.FlushRing` | inc/vring.h:275-298 | Notifies if and only if the index moved across the threshold, as the comment defines it; with the other end running meanwhile, one that sleeps with something to read is told, and the channel stays sound. |
| `Nc2RingPair.RingPair.FinishMessages` | inc/vring.h:307-326 | The same for the consumer index and a producer without space. |
| `Nc2RingPair.RingPair.FinalCheckForMessages` | inc/vring.h:334-348 | With the other end running between the looks: no is said only when nothing is left to read and the channel is one whose watcher sleeps soundly. |
| `Nc2RingPair.RingPair.CanSendPayloadBytes` | inc/vring.h:354-415 | With the other end running between any two reads, the retry loop ends within a ring's length; yes means message and pad fit, no means they did not and the threshold is set at the index last read. |
| `Nc2RingPair.RingPair.AvoidRingWrap` | inc/vring.h:246-253 | After it the message is contiguous and still fits. |
| `V2vMessages.RoundUpIsMask` | xenevtchn/v2v.c:1136-1137 | Adding seven and masking rounds up to a multiple of eight. |
| `V2vMessages.PreparedIff` | xenevtchn/v2v.c:1158-1167 | A message that is not refused gets the right sizes if and only if its rounded size is not 64K. |
| `V2vMessages.FullRingMessage` | xenevtchn/v2v.c:1166-1171 | A message for which they are wrong: it asks for no space. |
| `V2vMessages.FramedBack` | xenevtchn/v2v.c:1180-1186 | What is written for a message is read back as that message and nothing else, whatever lies behind it up to the rounded size. |
| `V2vMessages.HeadFound` | xenevtchn/v2v.c:1105-1128 | On a ring laid out by the sender, the receiver's bounds checks pass and it finds exactly the message or pad at its cursor. |
| `V2vMessages.MessagesArrive` | xenevtchn/v2v.c:1061-1142 | In every run of sender and receiver the messages received, with type, flags and payload, are the first ones sent, in order; the rest is still in the ring between pads that the receiver drops; whenever something is published the receiver finds a whole message or pad and never an error; once the ring is empty everything sent has been received. |
| `V4vRing.DepositAppends` | inc/v4v.h:402-410 | A deposit appends to the waiting bytes, across any wrap. |
| `V4vRing.NextIsHead` | inc/v4v.h:418-504 | Reading delivers the oldest message whole and leaves the rest, with the cursor aligned and in range. |
| `V4vRing.Fifo` | inc/v4v.h:418-504 | In every run the messages received are the first ones sent, in order and unaltered. |
| `V4vRing.HeadersInPlaceIff` | inc/v4v.h:435-436 | Among multiples of 8, the ring lengths for which no run of deposits and reads meets a header that is not in one piece are exactly the multiples of 16. |
| `V4vRing.MisplacedHeader` | inc/v4v.h:435-436 | For every other multiple of 8, a run of empty messages that leads to such a header. |
| `V4vReader.MemcpySkip` | inc/v4v.h:506-530 | Copies what lies behind the skipped bytes and says how many are left to skip. |
| `V4vReader.Reader.CopyOut` | inc/v4v.h:418-504 | Delivers the first min(t, length) payload bytes, returns the length, and moves the cursor only when consuming. |
| `V4vReader.Reader.CopyOutOffset` | inc/v4v.h:537-627 | Delivers exactly payload bytes skip to min(t, length); with skip 0 this is `CopyOut`. |
| `RxShadows.Unthread` | net/receiver_common.c:64-80 | Taking the head leaves an acyclic list of the rest. |
| `RxShadows.Thread` | net/receiver_common.c:92-98 | Pushing an id not on the list leaves an acyclic list. |
| `RxShadows.ListFull` | net/receiver_common.c:230-231 | When no id is in use the list is as long as the array. |
| `RxShadows.WiredReceive` | net/receiver_common.c:484-491 | A response carries an id in use, and giving it back leaves every other id once on the ring. |
| `Receiver.Receiver.constructor` | net/receiver_common.c:150-182 | Initialisation establishes the invariant, and req_prod is PendingRfds. |
| `Receiver.Receiver.AllocateShadow` | net/receiver_common.c:55-81 | Takes the head of the free list; its assertions hold. |
| `Receiver.Receiver.FreeShadow` | net/receiver_common.c:83-102 | Puts an id in use at the head; the cap on the counter never bites. |
| `Receiver.Receiver.AllocateRfd` | net/receiver_common.c:288-339 | Takes the head of the cache or, if that is empty, what the system supplies; the RFD is nowhere else; counts each failed page allocation. |
| `Receiver.Receiver.ReleaseRfd` | net/receiver_common.c:253-286 | Caches up to 64, frees the rest, and keeps the count. |
| `Receiver.Receiver.ReceiveRfd` | net/receiver_common.c:187-210 | Returns the RFD recorded under the id, no longer granted, with the id free. |
| `Receiver.Receiver.ReplenishRxRing` | net/receiver_common.c:390-425 | Keeps the invariant, never overflows the ring, never lacks a grant, publishes everything, and stops short of filling the ring only after an allocation was refused. |
| `Receiver.Receiver.RestartEarly` | net/receiver_common.c:427-450 | On a fresh ring nothing is pending or granted and every id is free; the cache is as it was. |
| `Receiver.Receiver.CleanupBuffers` | net/receiver_common.c:212-251 | Releases everything; its last assertion holds if and only if what is held above equals the failed page allocations, modulo 2^32. |
| `Receiver.Receiver.ReceiveRfdChain` | net/receiver_common.c:462-538 | Pulls exactly one packet off the ring and hands every RFD of it up, as `Gather` says. |
| `Receiver.Receiver.ReleaseMdlChain` | net/receiver_common.c:542-556 | Takes the RFDs back from the layers above, each once, and puts as many on the head of the cache as fit. |
| `Receiver.Receiver.BackendConsume` | net/receiver_common.c:383-385 | The page the back end is given under an id is that of the RFD recorded under it; the invariant is kept. |
| `Receiver.Receiver.BackendAnswer` | net/receiver_common.c:484-491 | Answering a held id once publishes that answer behind the others and keeps the invariant. |
| `Receiver.PacketApart` | net/receiver_common.c:484-491 | The responses that wait are for different RFDs, so `NoneLost` applies to every packet. |
| `Receiver.GatherFragments` | net/receiver_common.c:510-520 | The chain is the fragments in order of arrival, with their octets summed in 32 bits; it is never empty. |
| `Receiver.GatherFails` | net/receiver_common.c:488-489 | The call fails if and only if some response of the packet reports an error. |
| `Receiver.GatherFlags` | net/receiver_common.c:498-512 | The flags passed up are exactly those of the responses of the packet. |
| `Receiver.NoneLost` | net/receiver_common.c:493-508 | Every RFD of the packet can be reached from the results if and only if it has at most one prefix. |
| `Receiver.TwoPrefixesLoseOne` | net/receiver_common.c:493-508 | A packet of two prefixes whose first RFD is lost. |
| `Receiver.NumbersAgree` | net/receiver_common.c:379-387 | PendingRfds is the ids in use, and req_prod_pvt less rsp_cons, at most the ring; while an id is free there is a grant for it. |
| `Receiver.CountExactIff` | net/receiver_common.c:330-337 | CurrNumRfd is pending, cached and held RFDs together if and only if no page allocation failed. |
| `Receiver.PageFailureExample` | net/receiver_common.c:336-338 | A failed page allocation after which the count has wrapped. |
| `Circle.CapacitySplits` | sockpipe/Circle.cpp:107-152 | Insertable and held bytes add up to the length less one; something can be retrieved in a straight line if and only if something is held. |
| `Circle.RetestKeeps` | sockpipe/Circle.cpp:174-211 | The copy that Insert chooses on its second look at `out` is right however far the consumer moved, and its assertion holds. |
| `Circle.StepKeepsInv` | sockpipe/Circle.cpp:154-336 | Every step of either side keeps the invariant and its assertions hold. |
| `Circle.EveryRun` | sockpipe/Circle.cpp:154-336 | In every interleaving the bytes the consumer saw and committed are the first bytes inserted, in order; never more than length less one are held; no assertion fires. |
| `Circle.InsertionSize` | sockpipe/Circle.cpp:154-172 | In every interleaving, what a call of Insert publishes is the smaller of its data and the space there was when it looked. |
| `Circle.OfferSize` | sockpipe/Circle.cpp:286-309 | In every interleaving, what the consumer is offered is what lay in one piece when it looked; nothing only if nothing was held. |
| `Circle.Buffer.Insert` | sockpipe/Circle.cpp:154-215 | Appends as much as fits, across the wrap. |
| `Circle.Buffer.QueryContiguousRetrievable` | sockpipe/Circle.cpp:286-309 | Points at the oldest bytes held, all of them up to the end of the buffer; none only if none are. |
| `Circle.Buffer.CommitRetrieved` | sockpipe/Circle.cpp:311-336 | Removes exactly the oldest bytes. |
| `MrswLock.FlagIsHighBit` | inc/scsiboot.h:272-285 | The mask tells whether the top bit of the word is set. |
| `MrswLock.StepKeepsInv` | inc/scsiboot.h:278-351 | Below 2^31 readers every step keeps the word the exact number of readers, or the flag with one writer and no reader; no release assertion fires. |
| `MrswLock.EveryRun` | inc/scsiboot.h:278-351 | The same for every run of any number of threads. |
| `MrswLock.AcquisitionEnds` | inc/scsiboot.h:278-351 | In every run a call of an acquire function lasts until its caller gets the lock, for reading at a step at which the word has no flag and becomes one more, for writing at one at which it is zero and becomes the flag; only a try may end without, at a step at which the word has the flag. |
| `MrswLock.AcquiredBeforeIdle` | inc/scsiboot.h:278-318 | In every run, between a call of acquire_mrsw_read or acquire_mrsw_write and its thread's next idle state there is one in which the thread holds the lock. |
| `MrswLock.AloneTakes` | inc/scsiboot.h:304-318 | Wherever it is in its call, a reader that runs alone takes a lock without the flag, and a writer one that is zero, within three steps. |
| `MrswLock.WaitsWhileHeld` | inc/scsiboot.h:283-288 | While a writer holds the lock acquire_mrsw_read waits and a try gives up; while anyone holds it acquire_mrsw_write waits. |
| `MrswLock.ReleaseSteps` | inc/scsiboot.h:294-334 | A release depends on no one else: it takes one off the word, or makes it zero. |
| `MrswLock.MutualExclusion` | inc/scsiboot.h:304-318 | A writer is alone. |
| `MrswLock.ReaderTooMany` | inc/scsiboot.h:289-299 | The bound is sharp: with one reader more an assertion fires. |
| `MrswLock.TooManyReaders` | inc/scsiboot.h:289-299 | A run of 2^31 readers at whose end a release assertion fails. |
| `Utf8.CharIff` | wnet/utf8.c:32-88 | Accepted are exactly the shortest forms of allowed code points, and the four-byte forms from 0x1000 on. |
| `Utf8.OverlongAccepted` | wnet/utf8.c:78-81 | An overlong form that is accepted. |
| `Utf8.AcceptedIffSpelled` | wnet/utf8.c:117-134 | A string is accepted, with the given code points, if and only if it consists of such forms. |
| `Utf8.EncodingAccepted` | wnet/utf8.c:117-134 | The encoding of section 3 of RFC 3629 of any string of scalars without NUL, U+FFFE and U+FFFF is accepted and decoded to that string. |
| `Utf8.OutputDecodes` | wnet/utf8.c:90-105 | The units written decode, by section 2.2 of RFC 2781, to the scalars read. |
| `Utf8.GetUnicodeChar` | wnet/utf8.c:32-88 | The masks and shifts compute `Char`, and never read behind the terminator. |
| `Utf8.StoreUtf16` | wnet/utf8.c:90-105 | Stores the encoding of section 2.1 of RFC 2781 and nothing else. |
| `Utf8.CountUnits` | wnet/utf8.c:117-134 | Rejects or counts exactly the units to be written. |
| `Utf8.ToUtf16` | wnet/utf8.c:107-149 | Null if and only if the string is rejected or memory runs out; else the UTF-16 form of its code points, terminated; the second pass never fails. |
| `Checksum.Accumulate` | net/xennet_common.h:194-203 | The sum of the words and the padded odd byte, modulo 2^32. |
| `Checksum.FoldKeepsResidue` | net/xennet_common.h:205-211 | Folding keeps the sum modulo 65535 and gives zero only for zero. |
| `Checksum.FoldIsOnesSum` | net/xennet_common.h:205-217 | Up to 65537 words the accumulator does not overflow, and the result is the complement of the one's complement sum word by word (section 1 of RFC 1071). |
| `Checksum.OverflowBeyond` | net/xennet_common.h:200-202 | The bound is sharp. |
| `Checksum.SplitsAtEven` | net/xennet_common.h:194-203 | Accumulation splits at any even offset. |
| `Checksum.StoredVerifies` | net/xennet_common.h:213-217 | With the checksum stored in its zeroed, aligned field the checksum of the packet is zero. |
| `Checksum.ByteOrderIndependent` | net/xennet_common.h:200-202 | Exchanging the bytes of every word exchanges the bytes of the sum (section 2 of RFC 1071). |

## Left out

- Windows plumbing: IRP forwarding, remove locks, PnP, ioctls and the wakeup of the port driver; only what starting, powering down and powering up do to pause, close, connect and unpause is kept.
- Xenbus negotiation, event channels and the grant table itself; the grant cache is known by the contract at `inc/xsapi.h:981-1037`.
- Connecting and unpausing are one step; a suspend between them (`scsifilt/controlpath.c:483`) is not considered. Nor is one between the change of power state and the pause (`scsifilt/power.c:163-166`).
- Stopping and removing a device, except for the abort of what waits for replay.
- Parsing of command blocks, timing statistics, trace output and debug dumps; redirected requests of `scsifilt/redirect_srb.c`.
- Scsifilt.Device.NoticeDehibernated: nothing in the repository calls the function it models.
- SrbSplit.CountIsGroups: for transfers whose bytes, rounded up to a page, fit 32 bits, which the limit at `scsifilt/scsifilt.c:870` ensures.
- SrbSplit.InitialiseDirect: the sector size is a power of two of at most a page.
- SrbTransfer.WriteSrb: memory is seen in whole sectors; the copies move whole sectors.
- Nc2Protocol.EveryRun: messages are shorter than 32768 bytes, and one whose pad would be too short for its own header is not sent; the preparation of a message advances the index and the count as the pad does.
- The hint at `inc/vring.h:259-267`, and the hints and spinning of v2v channels (`xenevtchn/v2v.c:1083-1095`, `xenevtchn/v2v.c:1169-1195`).
- V2vMessages.MessagesArrive: a message and its payload are written in one step before the index is published; the near copy in `xenuser/v2v` and the connection of channels are not modelled.
- V4vReader.Reader.CopyOut: a message is at least as long as its header; the source would compute a negative payload length otherwise.
- V4vReader.Reader.CopyOutOffset: the destination is not null.
- The sending side of v4v is in the hypervisor; it is specified as depositing whole messages padded to 16 bytes.
- Receiver.Receiver.ReceiveRfdChain: the packet is complete on the ring, a prefix is followed by more data and fragments carry only known flags, as its assertions demand.
- Receiver.Receiver.AllocateRfd: an RFD is a number that is never reused; buffer contents and MDL fields other than offset and count are not modelled.
- The receiver of `wnet/`, a near copy of the one modelled.
- Circle::Retrieve, Circle::Drain and the wait event: the wrapped branch of Retrieve neither copies nor wraps at the length, and Drain writes the producer's index.
- Circle.EveryRun: memory is sequentially consistent, and lengths passed to Insert are not negative.
- MrswLock.EveryRun: interrupt levels are not modelled, nor is fairness.
- Utf8.ToUtf16: the size of the allocation is not reduced modulo 2^32.
- Registry and installer tools, audio, and the other socket and pipe code.
