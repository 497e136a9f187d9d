# Verification of emoskit

emoskit is an RPC framework for Linux: an acceptor hands sockets to event loops, event loops read requests and hand
them to worker threads, and workers hand responses back. This project models the parts on which that rests and proves
what they promise.

- `CircBuf.dfy` is the lock-free ring between workers and loops (circbuf.h, wait_strategy.h) as a step machine: any
  number of producers and consumers, one shared access a step, compare-and-swap that may fail for no reason, and caches
  of the counters that are loaded in one step and stored in another, so that they can go backwards. A ring built for a
  single producer is included. `TicketQueue.dfy` is what the ring should be, a bounded queue of numbered tickets;
  `CircBufRefinement.dfy` proves that it is.
- `ResponseQueue.dfy` puts workers, ring, eventfd notification and event loop together (task.h, notifier.h,
  network_event_handler.cpp), with the steps of all threads interleaved, and proves that no response is stranded.
- `Progress.dfy` proves that they get on: a producer or a consumer that goes on alone claims whenever it may, and from
  every state the response queue can come to rest with everything received.
- `SimpleCircBuf.dfy` is the ring for one producer and one consumer with its wrapping 64-bit indices (simple_circbuf.h),
  as a class and against a bounded queue; `SpscRing.dfy` interleaves its two sides; `AcceptDispatch.dfy` puts acceptor,
  rings, notification and loops together (server.cpp, network_event_handler.cpp); `AcceptProgress.dfy` proves that every
  accepted descriptor can get where it should.
- `EvLoop.dfy` is the event loop (ev_loop.h, ev_loop.cpp, ev_epoll.cpp): the pending arrays, the watcher lists, the
  cached masks and the registrations in the kernel, kept in agreement by every operation. It keeps a history of what was
  fed, cleared and called, which the pending arrays must replay; `History.dfy` is about such histories, and about the
  order of calls in them.
- `QuadHeap.dfy` is the 4-ary heap of common.h, in place on an array and for any strict weak order; `TimerHeap.dfy` is
  the timer heap with its back-indexes (4-minheap-internal.h), timer_notify (ev_loop.h) and a turn of dispatch.
- `OutputBuffer.dfy` is the byte queue in front of a socket (output_buffer.h) and the framing of responses through it.
- `MurmurHash.dfy` is the hash of the service and method tables (murmur_hash.cpp).
- `ConfigParser.dfy` is the configuration file parser (config_parser.cpp) against a renderer of all files there are, those
  with a fault included.
- `PowerOfTwo.dfy` is the arithmetic of util.h on which the rings rest; `Basics.dfy` has what several modules use.

## What does not hold of the code

- A buffer asked to hold more than 2^31 bytes is resized to nothing, because the 64-bit power of two does not fit the
  32-bit size, or, from 2^32 on, to what is left after the sum has wrapped (`OutputBuffer.Room`,
  `OutputBuffer.OutputBuffer.GetEmptyBuffer`, which say exactly when it is large enough; `OutputBuffer.NoRoom` has an
  example of each).
- Setting up a watcher again while it is inactive but still pending leaves an entry behind that nothing clears any more
  (`EvLoop.EvLoop.IoWatcherInit`, which says exactly when the loop stays consistent; killing its descriptor leaves a
  watcher like that, `EvLoop.EvLoop.KillAndSetUpAgain` and `EvLoop.EvLoop.SetUpTwice`).
- A timer is put into the heap before its deadline is cached, by the 0 of an unused slot: it ends up at the root whenever
  it is due, so the heap is ordered afterwards exactly if it is due no later than all others
  (`TimerHeap.Timers.Start`; `TimerHeap.StartTwo` is an example).
- The line named in a configuration error is one too many exactly when the place is itself a newline
  (`ConfigParser.LineExact`), which happens exactly to section headers that a newline breaks off
  (`ConfigParser.LineIsRight`), such as the contents "[" and a newline (`ConfigParser.LineTooFar`).
- Rings asked for more than 2^63 elements get 1024 (`PowerOfTwo.RingSizeIsPow2`).

## How concurrency is modelled

Steps are sequentially consistent: fences, padding and the weaker memory orders of the source are not modelled. An
eventfd is a counter whose reads and writes succeed. A wait that sleeps or yields is a step that changes nothing, and the
counters that only decide when to yield or sleep are left out. What
the threads share is a value on which one step of one thread acts, rather than an object updated in place, because the
runs of the system are what the theorems quantify over; the single-threaded code is modelled as classes, methods and
loops over arrays and fields, as it is written.

## Model

| member | source | states |
|---|---|---|
| PowerOfTwo.FindLastSetBit | util.h:112-126 | the loop returns the number of significant bits: the least k with word < 2^k, 0 for 0 |
| PowerOfTwo.IsPowerOf2IffPow2 | util.h:106-110 | the bit test accepts exactly the powers of two |
| PowerOfTwo.RoundUpIsLeast | util.h:132-140 | rounding up gives the least power of two that is at least x, and 0 exactly for x = 0 and x above 2^63 |
| PowerOfTwo.RoundDownIsGreatest | util.h:142-149 | rounding down gives the greatest power of two that is at most x |
| PowerOfTwo.RingSizeIsPow2 | circbuf.h:107-122 | every size a ring can be built with is a power of two between 2 and 2^63, the least that holds the requested size; out of range requests give 1024 |
| PowerOfTwo.MaskIsMod | circbuf.h:122-122 | masking with 2^k - 1 is the remainder modulo 2^k, for every number |
| PowerOfTwo.SlotIsMod | circbuf.h:254-257 | the slot of a sequence number is its remainder modulo the ring size, inside the buffer |
| PowerOfTwo.SlotShared | circbuf.h:254-257 | two sequence numbers share a slot exactly if they are congruent modulo the size; less than a turn apart they are then equal |
| PowerOfTwo.SlotOfWrapped | simple_circbuf.h:88-136 | the 64-bit indices keep pointing at the right slot when they wrap, because the size divides 2^64 |
| PowerOfTwo.RingSizeDivides | simple_circbuf.h:70-86 | every power of two up to 2^64 divides 2^64 |
| CircBufRefinement.InitSim | circbuf.h:106-149 | a new ring stands for the empty ticket queue |
| CircBufRefinement.ClaimSim | circbuf.h:185-207 | a successful CAS of in_ is the next claim of the ticket queue, even though it was allowed by a stale cache: the exact check would allow it too |
| CircBufRefinement.FillSim | task.h:56-75 | filling a claimed slot is invisible to everyone else |
| CircBufRefinement.PublishSim | circbuf.h:259-266 | clearing isFree_ publishes the value under the claimed number |
| CircBufRefinement.TakeSim | wait_strategy.h:50-81 | a successful CAS of out_ takes the next published ticket |
| CircBufRefinement.MoveSim | circbuf.h:290-298 | moving the element out concerns only the consumer that took the number |
| CircBufRefinement.DoneSim | circbuf.h:268-274 | setting isFree_ delivers the ticket, with the value its producer published |
| CircBufRefinement.ProducerStepSim | circbuf.h:185-207 | every single shared access of a producer, alone or among many, failed and spurious CAS and cache stores included, is a step of the ticket queue or none at all |
| CircBufRefinement.ConsumerStepSim | wait_strategy.h:236-267 | so is every shared access of a consumer under the yield, timeout and non-blocking strategies; that they also lead to a number is in Progress.GetAlone and Progress.GetLate |
| CircBufRefinement.RunRefines | circbuf.h:185-301 | every interleaved run of any number of producers and consumers refines the ticket queue |
| CircBufRefinement.AssertsHold | circbuf.h:205-274 | in every reachable state the three asserts of the source hold where they stand: free after a claim and before publish, not free before consumer_done |
| CircBufRefinement.OneOwnerPerSlot | circbuf.h:185-301 | no slot is ever held by two threads, be they producers or consumers |
| CircBufRefinement.CachesAreSound | circbuf.h:73-76 | in every reachable state cache_out_ <= out_, cache_in_ <= in_, out_ <= in_ and in_ - out_ <= size, however stale the caches; so what a cache allows the exact counters allow |
| CircBufRefinement.Fifo | circbuf.h:290-301 | over every run, what the consumer of a number moves out is what the producer of that number wrote, published earlier and under no other number |
| CircBufRefinement.ClaimedOnceInOrder | circbuf.h:185-207 | over every run, the numbers claimed by producers are 0, 1, 2, ... each once, and so are those claimed by consumers |
| TicketQueue.ApplyKeepsOrder | circbuf.h:185-274 | the queue of tickets keeps its order: taken ones first, never more than a turn ahead |
| TicketQueue.NumbersAreHandedOutInOrder | circbuf.h:185-207 | in every trace of the specification a claim has as its number the claims before it, and a take the takes before it |
| TicketQueue.PublishedAndDeliveredOnce | circbuf.h:259-274 | a number is published at most once and delivered at most once |
| TicketQueue.DeliversWhatWasPublished | circbuf.h:290-301 | what is delivered under a number is the one value that was published under it, before |
| ResponseQueue.WorkKeepsInv | task.h:56-78 | no step of a worker, from claiming a slot to publishing, breaks the invariant of the wake-up protocol |
| ResponseQueue.SwapKeepsInv | notifier.h:65-72 | nor does exchanging the flag |
| ResponseQueue.WriteKeepsInv | notifier.h:72-80 | nor writing the eventfd |
| ResponseQueue.LoopKeepsInv | notifier.h:82-94 | nor the event loop waking up, reading the eventfd and clearing the flag |
| ResponseQueue.DrainKeepsInv | network_event_handler.cpp:39-41 | nor any step of draining the queue |
| ResponseQueue.TokenConservation | notifier.h:65-94 | in every reachable state the flag is set exactly if one of these holds, and then only one: a worker is about to write the eventfd, the eventfd is signalled, the loop is between read and clear; the counter never exceeds 1 |
| ResponseQueue.NoLostWakeup | task.h:77-78 | a published response that nobody has taken, and whose worker is done notifying, finds the loop awake, signalled or about to be |
| ResponseQueue.ReceivedAsPublished | task.h:56-78 | in every reachable state what the loop has received is, number by number and each once, what was published under that number |
| ResponseQueue.QuietMeansDelivered | network_event_handler.cpp:26-41 | when all workers are done and the loop sleeps unsignalled, every number claimed has been published, the loop has received exactly what was published under each, in order, and every slot is free |
| ResponseQueue.RingRuns | circbuf.h:185-301 | what the ring does in a run of the whole system is a run of the ring, so the refinement, first in first out and the other results about rings hold here too |
| ResponseQueue.RingReachable | circbuf.h:205-274 | so in every reachable state of the system the ring is in a reachable state |
| ResponseQueue.GivesNothingOnlyWhenEmpty | wait_strategy.h:242-249 | whenever the non-blocking wait gives up, the ring was empty when that call of is_empty loaded in_, be it before or after out_ |
| Progress.DrainGetsOn | wait_strategy.h:236-267 | each step of a lone consumer that does not block brings it nearer to the next element or to finding the ring empty, however stale its cache |
| Progress.DrainFinishes | network_event_handler.cpp:26-65 | from every reachable state in which workers are between calls, steps of the loop alone lead to sleep with nothing signalled, and then the loop has received exactly what was published, by number |
| Progress.ComesToRest | network_event_handler.cpp:26-65 | from every reachable state whatever, workers and loop can come to rest, with everything that was published received |
| Progress.AnyResponseArrives | task.h:56-78 | from every reachable state a worker between calls can respond with anything, and the loop receives it, under a number of its own |
| Progress.TakeAlone | circbuf.h:185-235 | a producer anywhere in take() that goes on alone claims the next number, within eight steps of the call and eleven of any place, exactly if the exact check lets it, and otherwise never, however stale the caches and what it has loaded itself |
| Progress.PollAlone | circbuf.h:185-237 | a producer in poll() that runs alone claims the next number exactly if the exact check and its cache let it; otherwise it fails, and leaves a cache that lets the next poll through if the exact check does |
| Progress.GetAlone | wait_strategy.h:50-81 | a consumer anywhere in wait_for that goes on alone takes the next number, within ten steps of the call and thirteen of any place, exactly if that has been published, however stale the cache and what it has loaded itself, under any strategy; otherwise it never does, and comes back without a number only if it does not block, and exactly if is_empty finds the ring empty |
| Progress.GetLate | wait_strategy.h:171-210 | a consumer that calls the timed wait when its deadline has passed takes the next number exactly if that has been published and the cache lets it; otherwise it comes back without one, and leaves a cache that lets the next call through |
| Fifo.InIsOutPlusInside | simple_circbuf.h:88-136 | over every trace of the specification, what went in is what came out followed by what is inside |
| SimpleCircBuf.WrappedCounts | simple_circbuf.h:116-116 | the difference of the wrapped indices is the number of elements, and tells empty from full |
| SimpleCircBuf.WindowPush | simple_circbuf.h:125-133 | writing behind the window appends to the contents |
| SimpleCircBuf.WindowPop | simple_circbuf.h:100-108 | stepping over the first element drops it from the contents |
| SimpleCircBuf.SimpleCircBuf.constructor | simple_circbuf.h:53-58 | a new buffer is empty and has the power-of-two size for the request |
| SimpleCircBuf.SimpleCircBuf.ReInit | simple_circbuf.h:60-68 | re-initialising empties the buffer and gives it the power-of-two size for the request |
| SimpleCircBuf.SimpleCircBuf.Get | simple_circbuf.h:88-111 | takes the oldest element, or returns -1 and changes nothing exactly when there is none |
| SimpleCircBuf.SimpleCircBuf.Put | simple_circbuf.h:113-136 | appends the element, or returns -1 and changes nothing exactly when the buffer is full |
| SpscRing.PutStepSim | simple_circbuf.h:113-136 | check, copy and increment of Put, each a step of its own, refine the bounded queue against any interleaved Get |
| SpscRing.GetStepSim | simple_circbuf.h:88-111 | so do check, move and increment of Get against any interleaved Put |
| SpscRing.RunRefines | simple_circbuf.h:88-136 | every run of one putter and one getter refines the bounded queue, past any number of wraps of the indices |
| SpscRing.NothingLostOrReordered | simple_circbuf.h:88-136 | over every run, what was put is what was got followed by at most buffer_size elements |
| AcceptDispatch.PutKeepsInv | server.cpp:123-123 | a step of the Put call keeps the invariant of the loop it tries |
| AcceptDispatch.LoopMoveKeepsInv | network_event_handler.cpp:149-160 | so does every step of the loop: waking, reading, clearing, draining |
| AcceptDispatch.ServerMoveKeepsInv | server.cpp:107-137 | every step of the acceptor or of any loop keeps the invariant of all of them |
| AcceptDispatch.EachAcceptedOncePlaced | server.cpp:112-136 | in every reachable state the accepted descriptors are, in order, those placed in some loop, each once, and the one in the hand of the acceptor; each loop has received a prefix of its own |
| AcceptDispatch.NoDescriptorStranded | server.cpp:132-132 | a loop that has not received everything placed with it is awake, signalled or about to be; its flag is its one token; that it then wakes up and receives it is in AcceptProgress |
| AcceptDispatch.QuietMeansReceived | server.cpp:107-137 | when everything is quiet each loop has received exactly what was placed with it |
| AcceptDispatch.RoundRobin | server.cpp:122-135 | the k-th Put call, successful or not, goes to loop k modulo the number of loops |
| AcceptProgress.LoopGetsOn | network_event_handler.cpp:149-160 | a loop that is awake or signalled can go on by itself, and each step brings it nearer to sleep |
| AcceptProgress.LoopsFinish | network_event_handler.cpp:149-160 | from every reachable state in which the acceptor is between calls, steps of the loops alone lead to sleep with nothing signalled, and then each loop has received exactly what was placed with it |
| AcceptProgress.ComesToRest | server.cpp:107-137 | from every reachable state whatever, acceptor and loops can come to rest, with every accepted descriptor placed once and received by just the loop it was placed with |
| AcceptProgress.AnySocketArrives | server.cpp:107-137 | from every reachable state the acceptor can go on to accept any descriptor, and some loop receives it |
| QuadHeap.RootIsMinimum | common.h:45-112 | in heap order, under any strict weak order, nothing is below the root |
| QuadHeap.ReplaceInHeap | common.h:99-106 | after replacing one element only its surroundings are out of order |
| QuadHeap.SmallerThanParent | common.h:102-103 | an element below its parent is above none of its children, so it may be sifted up |
| QuadHeap.UpStep | common.h:92-94 | moving the hole up keeps everything else in order |
| QuadHeap.DownStep | common.h:76-78 | moving the hole down to the least child keeps everything else in order |
| QuadHeap.MinChild | common.h:53-70 | the scan finds a least child, of four or of fewer |
| QuadHeap.DownHeap | common.h:45-81 | repairs a heap whose element at pos is too large; permutes the elements, and leaves what lies behind the heap alone |
| QuadHeap.UpHeap | common.h:83-97 | repairs a heap whose element at pos is too small; permutes the elements |
| QuadHeap.AdjustHeap | common.h:99-106 | restores the heap after any replacement at pos; permutes the elements |
| QuadHeap.BuildHeap | common.h:108-112 | makes a heap of any array, permuting it, so that a minimum is in front |
| EvLoop.EvLoop.constructor | ev_loop.cpp:25-50 | a new loop is consistent, with nothing pending, watched or registered, and its dummy watcher is its own |
| EvLoop.EvLoop.FeedEvent | ev_loop.h:208-221 | a watcher is entered once, or its entry gets the event added; watchers and pending arrays keep agreeing |
| EvLoop.EvLoop.ClearPending | ev_loop.h:256-263 | the entry of a watcher becomes the dummy's; watchers and pending arrays keep agreeing |
| EvLoop.EvLoop.TakePending | ev_loop.cpp:98-102 | takes the last entry of a priority; its watcher is no longer pending, all others are as before |
| EvLoop.EvLoop.EveryCallIsComplete | ev_loop.cpp:93-107 | whatever happens to a loop, a callback is told exactly the events its watcher was fed since it was last called or stopped |
| EvLoop.EvLoop.NoCallIsStale | ev_loop.h:256-263 | whatever happens to a loop, between stopping or calling a watcher and calling it again it has been fed again: no old entry of a stopped watcher reaches its callback |
| History.HeldIsFedSince | ev_loop.h:208-221 | what the pending entry of a watcher holds is what it was fed since it was last called or cleared |
| EvLoop.WithoutRemoves | ev_loop.h:161-171 | removing a watcher from its list removes it and nothing else |
| EvLoop.EvLoop.ChangeNoted | ev_loop.h:238-248 | noting a change keeps fdchanges the list of exactly the flagged descriptors, each once, however often a descriptor changes before the next update |
| EvLoop.EvLoop.IoWatcherStart | ev_loop.cpp:129-141 | puts an inactive watcher first on the list of its descriptor and notes the change; lists, masks and registrations keep agreeing; an active one is left alone |
| EvLoop.EvLoop.IoWatcherStop | ev_loop.cpp:143-156 | takes the watcher off pending and off its list and notes the change; everything keeps agreeing |
| EvLoop.EvLoop.CloseFd | ev_loop.h:183-183 | closing a descriptor removes its registration and nothing else; the loop stays consistent exactly if nobody wants events of it or a change to it has yet to be told to the kernel |
| EvLoop.EvLoop.KillFd | ev_loop.h:173-184 | each watcher of the descriptor, in list order, is stopped and fed EV_ERROR, all others are untouched, the registration is gone, the change is noted |
| EvLoop.EvLoop.EpollCtl | ev_epoll.cpp:78-98 | ADD fails on what is registered, MOD on what is not, and either may be refused |
| EvLoop.EvLoop.TryRegister | ev_epoll.cpp:64-100 | the mask is remembered, the tag differs from the old one exactly if there is a new registration to make, and unless the kernel refuses the descriptor ends up registered with exactly that mask and tag |
| EvLoop.InterestIs | ev_loop.h:283-286 | a bit is in the mask computed for a watcher list exactly if some watcher of the list wants it |
| EvLoop.EvLoop.BackendModify | ev_epoll.cpp:52-107 | keeps kernel mask = previous_evs and kernel tag = tag where registered, though deletions are skipped and the tag is taken back on two paths, so that the tag differs from the old one exactly if a new registration was made; for a non-zero mask ends with exactly that mask and tag registered, or, if the kernel refused, with the descriptor unregistered and all its watchers stopped and pending; other registrations are untouched |
| EvLoop.EvLoop.Recompute | ev_loop.h:274-286 | clears the change flag of the next changed descriptor and makes its cached mask the union of what its watchers want, which keeps masks, lists and flags in agreement |
| EvLoop.EvLoop.UpdateNext | ev_loop.h:274-293 | one turn: either the array is as before, or fewer descriptors have watchers |
| EvLoop.EvLoop.WalkChanges | ev_loop.h:273-293 | the walk ends although its body appends to the array walked |
| EvLoop.EvLoop.UpdateFd | ev_loop.h:270-295 | afterwards no change flag is set, a bit is in a cached mask exactly if some active ev_io of that descriptor wants it, and every non-zero mask is exactly what is registered; only descriptors the kernel refused lose watchers, all of theirs, which are told EV_ERROR and nobody else anything, and the descriptor is not registered any more; no callback is called |
| EvLoop.EvLoop.IoWatcherInit | ev_loop.cpp:109-127 | the loop stays consistent exactly if the watcher was active or not pending (or has been set up for this loop for the first time): setting up a watcher that is still pending forgets its entry without clearing it |
| EvLoop.EvLoop.KillAndSetUpAgain | ev_loop.h:173-184 | that happens: on every loop, setting up an active watcher again after its descriptor was killed breaks the loop |
| EvLoop.EvLoop.SetUpTwice | ev_loop.cpp:109-127 | with every descriptor, mask and priority there is such a loop, four calls after its construction |
| EvLoop.EvLoop.FeedFdEvent | ev_loop.h:186-206 | feeds each watcher of the descriptor that wants part of the event just that part, each once and nobody else, in list order, and nobody if the descriptor has changed meanwhile; who was pending stays where it was |
| EvLoop.AcceptIsLegal | network_event_handler.cpp:162-171 | setting up and starting an ev_io for each of any number of sockets, as AcceptFdCb does, is something a callback may do |
| EvLoop.EvLoop.Perform | ev_loop.h:86-96 | any one thing a callback may do that leaves the loop consistent, setting up, starting or stopping a watcher, making one pending, feeding a descriptor, killing or closing one, does what it is for, calls nobody, clears only ev_io objects, and leaves everyone who is pending, and at most fed once more, where it was |
| EvLoop.EvLoop.AcceptFdCb | network_event_handler.cpp:149-172 | what AcceptFdCb does for the sockets it has received: every one of them ends up with its ev_io active on its list, for reading |
| EvLoop.EvLoop.Callback | ev_loop.cpp:102-104 | whatever sequence of such operations a callback makes, on watchers set up before or by itself, each is performed in turn, the loop stays consistent, nobody is called, and who is pending and not stopped keeps its place |
| EvLoop.EvLoop.InvokeLast | ev_loop.cpp:98-104 | one turn: takes the last entry, whose watcher is no longer pending, and runs its callback, unless the watcher has been cleared meanwhile |
| History.LastIsCalled | ev_loop.cpp:98-104 | calling the last entry of a priority keeps the order of calls: nobody is called before one who was pending above it has been called or stopped |
| History.CallbackKeepsOrder | ev_loop.cpp:102-104 | so does whatever a callback does |
| EvLoop.EvLoop.InvokePriority | ev_loop.cpp:97-105 | ends although callbacks may feed the array being drained, which is then empty: whoever was pending there has been called or stopped, last come first served, and after those of lower priority numbers, whatever the callbacks did; with callbacks that do nothing, the calls are known |
| EvLoop.EvLoop.InvokePendings | ev_loop.cpp:93-107 | whatever finitely many callbacks do, new watchers included: ends, keeps the loop consistent, runs one callback per call made; the next thing that happens to whoever was pending, but for feeding, is that it is called, told everything it had to be told, or stopped; only ev_io objects are stopped; of two that were pending, the one with the lower priority number, or the later one at one priority, is called first; if the callbacks do nothing, all the calls are known |
| TimerHeap.Timers.ShiftDown | 4-minheap-internal.h:84-121 | restores order on the cached deadlines, permutes the entries, and leaves every watcher knowing its position |
| TimerHeap.Timers.ShiftUp | 4-minheap-internal.h:66-82 | restores order on the cached deadlines, permutes the entries, and leaves every watcher knowing its position |
| TimerHeap.Timers.Adjust | 4-minheap-internal.h:123-130 | restores order and positions after any replacement of one entry |
| TimerHeap.Timers.RestartTop | ev_loop.h:316-325 | the first timer gets its next deadline, never in the past, and the heap is in order again |
| TimerHeap.Timers.RestartDue | ev_loop.h:315-332 | ends, restarts each timer that is due once and no other, in the order of their deadlines, and leaves none due |
| TimerHeap.Timers.InvertFeedDone | ev_loop.h:229-236 | feeds the stacked timers from the top; if none was pending, they lie on their pending array upside down |
| TimerHeap.Timers.TimerNotify | ev_loop.h:312-335 | restarts and feeds exactly the timers that are due, each once; a timer that was due is due again its repeat later, or now if that has passed, and the others when they were; the heap stays in order |
| TimerHeap.Timers.UpdateAndPoll | ev_loop.cpp:58-78 | brings the kernel up to date with what active ev_io objects want, killing the descriptors it refuses, and then feeds what was polled |
| TimerHeap.Timers.Poll | ev_loop.h:186-206 | for each polled event in turn, each watcher of its descriptor that wants part of it is fed that part, once, and nobody else, unless the descriptor has changed |
| TimerHeap.TopIsFirst | 4-minheap-internal.h:161-165 | no timer has an earlier deadline than the one on top |
| TimerHeap.FiredIfDue | ev_loop.h:315-332 | a timer has fired exactly if its deadline was before now |
| TimerHeap.Timers.Turn | ev_loop.cpp:58-83 | a turn of dispatch, whatever its callbacks do, keeps loop and heap consistent and calls nobody before its end: it brings the kernel up to date, feeds what was polled, each watcher its share, and the timers that are due; each of those so fed, and each of those killed, is called next and told so, unless it is cleared before; every timer that is due is called, and if none of them was pending, none before those that had earlier deadlines |
| TimerHeap.Deadlines | ev_loop.h:316-325 | after the walk each deadline is what it was if not before now, else that plus the repeat, or now if that is later |
| TimerHeap.Timers.NotifyAndInvoke | ev_loop.cpp:82-83 | the end of a turn: the timers that are due are fed upside down, and called in the order of their deadlines, whatever the callbacks do |
| TimerHeap.FiredPlaces | ev_loop.h:223-236 | timers that have fired, and were not pending, lie on the pending array with the first one on top |
| History.ToldAll | ev_loop.cpp:93-107 | a watcher that is not cleared, and not only fed, is called, and told everything it had been fed |
| History.AnswersAll | ev_loop.cpp:93-107 | a watcher that does not stay only fed is called next, and told at least what it had to be told, or cleared |
| EvLoop.EvLoop.TimerWatcherInit | ev_loop.cpp:158-168 | sets up a timer with the middle priority; the loop stays consistent exactly if it was active, new or not pending |
| TimerHeap.OneTimer | ev_loop.cpp:158-182 | a new loop with an ev_io and a started timer meets everything a turn asks for |
| TimerHeap.FirstTurn | ev_loop.cpp:51-88 | from there a turn whose first callback starts the ev_io calls the timer if it is due |
| TimerHeap.CalledFirstDeadlineFirst | ev_loop.h:223-236 | entries that a stack has fed upside down are called in the order in which they were stacked |
| TimerHeap.Timers.Start | ev_loop.cpp:170-182 | a timer that is started always ends up at the root, because it rises before its deadline is cached; every timer knows its place, but the heap is ordered exactly if the new timer is due no later than all others |
| TimerHeap.StartTwo | 4-minheap-internal.h:132-139 | so of two timers started one after the other, the second due later, the first is overlooked when it is due |
| OutputBuffer.NewSizeFits | output_buffer.h:68-73 | the new size holds what is asked for up to 2^31; above, it is 0 |
| OutputBuffer.Room | output_buffer.h:106-111 | with all its 32-bit sums, growing makes room exactly if the buffer is to hold at most 2^31 bytes |
| OutputBuffer.NoRoom | output_buffer.h:68-73 | a full buffer of 2^31 bytes is resized to nothing for one more byte, and to 8 bytes for 2^31 + 5 more |
| OutputBuffer.OutputBuffer.Resize | output_buffer.h:68-73 | keeps the bytes that fit |
| OutputBuffer.OutputBuffer.GetEmptyBuffer | output_buffer.h:106-117 | the place it gives lies inside the buffer exactly if the bytes fitted before or at most 2^31 are to be held; then the contents are kept and extended |
| OutputBuffer.OutputBuffer.Consume | output_buffer.h:94-98 | drops what has been written from the front |
| OutputBuffer.OutputBuffer.AdjustBuffer | output_buffer.h:75-92 | keeps the contents and bounds the offset; the copy that allows no overlap is used only when there is none |
| OutputBuffer.BigEndianInverse | network_event_handler.cpp:46-47 | the length prefix has its most significant byte first, and can be read back |
| OutputBuffer.UnframePrefix | network_event_handler.cpp:46-58 | a receiver of any part of the stream sees the first responses, whole and in order, and of the whole stream all of them |
| OutputBuffer.Connection.Append | network_event_handler.cpp:46-48 | puts one framed response behind what is buffered |
| OutputBuffer.Connection.Flush | network_event_handler.cpp:54-58 | sends exactly the part the kernel takes, from the front of what is buffered; what was sent and what is buffered remain the stream |
| OutputBuffer.Connection.ResponseCb | network_event_handler.cpp:39-65 | after any queue of responses and any short writes, as long as each response finds room at its turn, bytes sent followed by bytes buffered are the framed responses in order; and if the kernel takes all of the last write, all of them have been sent |
| OutputBuffer.RoomForAll | output_buffer.h:106-117 | each does, whatever the kernel takes, if there is room for all of them |
| OutputBuffer.RoomForEach | output_buffer.h:75-92 | and a queue of any length does when the kernel takes each response at once |
| MurmurHash.ScrambleInjective | murmur_hash.cpp:41-45 | mixing a block is one-to-one |
| MurmurHash.MixInjective | murmur_hash.cpp:40-50 | a turn of the loop is one-to-one in the hash so far and in the block |
| MurmurHash.FinishInjective | murmur_hash.cpp:68-76 | the finaliser is one-to-one |
| MurmurHash.LoadInjective | murmur_hash.cpp:41-41 | a block determines its four bytes |
| MurmurHash.BlocksStayApart | murmur_hash.cpp:40-50 | hashes that a block has driven apart stay apart over all later blocks |
| MurmurHash.MurmurHash3 | murmur_hash.cpp:25-77 | computes the hash that the other members are about |
| MurmurHash.OneBlockApart | murmur_hash.cpp:25-77 | keys of the same length that differ only in one aligned four-byte block never collide |
| MurmurHash.TailsApart | murmur_hash.cpp:25-77 | keys of the same length that differ only in the last one to three bytes never collide |
| MurmurHash.ZerosApart | murmur_hash.cpp:52-68 | a key and the same key with zero bytes added within its last, incomplete block never collide: the length tells them apart |
| MurmurHash.SeedsApart | murmur_hash.cpp:25-77 | one key under two seeds never has the same hash |
| MurmurHash.KnownHashes | murmur_hash.cpp:32-76 | the hash has the values known of MurmurHash3 for three keys, which pins its constants, its rotations and the order of its bytes |
| ConfigParser.ConfigParser.Scan | config_parser.cpp:229-233 | every scan stops at the first character that does not belong, at the latest at the terminating NUL |
| ConfigParser.Classes | config_parser.cpp:214-231 | the characters of spaces, blanks, names, comments and values, by their codes |
| ConfigParser.ConfigParser.CountLine | config_parser.cpp:202-210 | terminates within the contents and counts the newlines up to and including a place |
| ConfigParser.NewlinesCounted | config_parser.cpp:202-210 | that number is how many places hold a newline |
| ConfigParser.LineExact | config_parser.cpp:202-210 | that is the line of the place, one more than the newlines before it, exactly if the place is not itself a newline |
| ConfigParser.LineIsRight | config_parser.cpp:124-142 | for all contents, the line reported with an error is the right one exactly if the error is not a section header broken off by a newline |
| ConfigParser.LineTooFar | config_parser.cpp:124-126 | a bracket before a newline is reported for line 2 instead of 1 |
| ConfigParser.ConfigParser.ParseSection | config_parser.cpp:115-143 | a section header, with each of its three errors, a section opened before included, and where it is reported, as HeaderFails and SectionParsed say of every header |
| ConfigParser.ConfigParser.ParseSetting | config_parser.cpp:156-189 | a key and value, with each of its errors and where it is reported |
| ConfigParser.ConfigParser.ParseConfig | config_parser.cpp:93-199 | terminates, never reads past the NUL, succeeds exactly for files without a fault, and else gives the error of the first fault and its line, which is the right one except at a newline that breaks off a section header |
| ConfigParser.SectionParsed | config_parser.cpp:113-144 | a rendered section header is parsed as that section |
| ConfigParser.HeaderFails | config_parser.cpp:121-142 | a header without a name, of a section opened before, or without its bracket fails with that error, at the place of the name or of what stands for the bracket |
| ConfigParser.SettingParsed | config_parser.cpp:149-191 | a rendered setting is parsed as that key and value |
| ConfigParser.SettingFails | config_parser.cpp:156-185 | a key without an equals sign, or without a value, fails with that error, at the key or at the sign |
| ConfigParser.FillerSkipped | config_parser.cpp:100-111 | blanks, blank lines and comments change nothing |
| ConfigParser.ParseInvertsRender | config_parser.cpp:93-199 | parsing undoes rendering, for any sections with new names, keys, values and anything that may stand around them |
| ConfigParser.EndingParsed | config_parser.cpp:93-199 | each of the seven faults gives its error at its place, whatever comes after it; without one the parse ends at the end or at a NUL |
| ConfigParser.FileParses | config_parser.cpp:93-199 | a file of any entries and filler, ending as a file should or in a fault, gives exactly what its entries say, or the error of the fault at its place |
| ConfigParser.EveryStringIsAFile | config_parser.cpp:93-199 | there are no other files: whatever the contents, they are such entries followed by such an ending |
| ConfigParser.ParsesExactly | config_parser.cpp:93-199 | so parsing succeeds exactly for files without a fault, and fails exactly with the error of the first fault, at its place, whatever the contents |
| ConfigParser.LookupGivesLast | config_parser.cpp:71-86 | looking up a section and key gives the last value the file has for them before its end or its first fault, and nothing if it has none |
| ConfigParser.ConfigParser.ParseAndGet | config_parser.cpp:71-199 | after parsing any contents, GetItem returns the last value that the entries before the end or the first fault set for the section and key, and fails exactly if they set none |

## Left out

- CircBufRefinement.Fifo: sequence numbers are unbounded; the source's are signed 64-bit, which would take centuries to exhaust.
- AcceptDispatch.EachAcceptedOncePlaced: errors of accept, which retry, are not modelled, and its steps end where AcceptFdCb has a socket in hand; what that callback does then is in EvLoop.AcceptIsLegal.
- EvLoop.EvLoop.UpdateFd: the arrays that grow on access, the descriptor table, the pending arrays, fdchanges and the timer heap, are fields holding a map or a sequence, up to their count; their reallocation is not modelled.
- EvLoop.EvLoop.KillFd: EV_ERROR does not survive the narrowing to 16 bits on its way to the callback, so it is modelled as the empty mask that arrives there.
- EvLoop.EvLoop.EpollCtl: EPOLLIN and EPOLLOUT are identified with the read and write bits, the only ones io_watcher_init admits; masks are sets of bits.
- EvLoop.EvLoop.InvokePendings: a callback is a finite list of operations on the loop; that it may run for ever is not modelled, nor that it may start or stop timers; the objects it sets up exist beforehand, unused.
- TimerHeap.Timers.TimerNotify: for timers with a repeat only; a timer without one goes through quad_minheap::remove, which dereferences null when it removes the last entry.
- EvLoop.EvLoop.Perform: two operations that break the loop are left out of a callback when it comes to them: setting up a watcher that is pending but not active, and closing a descriptor whose events are wanted and registered; EvLoop.EvLoop.IoWatcherInit and EvLoop.EvLoop.CloseFd say that they break it exactly then.
- Progress.ComesToRest: that the system can come to rest, and by what steps, not that every scheduler lets it: a compare-and-swap may fail for no reason again and again.
- TimerHeap.Timers.Start: into slots not used before, which is all there are as long as no timer has been removed; deadlines are positive.
- TimerHeap.Timers.Turn: on an ordered heap; what polling finds is any list of descriptors and events, and how long it blocks is left out.
- TimerHeap.Timers.RestartDue: time is a real number, not a floating-point one, and does not move during the walk.
- OutputBuffer.Connection.Respond: the bytes to be held stay within 2^31, as room for the response demands; write takes between none and all of what it is offered, its errors are not modelled; and one socket is followed, since responses for other sockets go to other buffers.
- MurmurHash.MurmurHash3: words are little-endian, and keys longer than the range of the loop counter are not told apart.
- ConfigParser.ConfigParser.ParseConfig: characters are classified as in the C locale; reading the file and the integer look-ups through atoi are left out.
- quad_minheap::pop and remove: they copy only the watcher of an entry, not its deadline, and remove dereferences null for the last entry, so that the order they should keep is not kept.
- backend_poll, with the re-arming of spurious events: what it finds is any list of descriptors and events.
- ReadCb and the reassembly of requests: short reads are not accumulated, and task_count is never updated, so what is intended does not hold.
- block_wait_strategy: it tests for emptiness before announcing that it waits, so it promises no wake-up; no queue uses it.
- The sizing and shutdown of the thread pool: its index bookkeeping is unreliable; workers are modelled as users of the rings.
- Generated protocol code, client streams and stubs, loggers, configuration checks and build files: input, output and plumbing.
