# A model of libuv's scheduling core

libuv is an event loop library in C. These files model the parts of it whose correctness does not
depend on the operating system, and prove what each of them is for. Every file stands for one
source file, or for a definition that several of them share.

| file | models |
|---|---|
| `ThreadPool.dfy` | the worker pool: ordinary and slow work, cancellation, delivery to the loop, shutdown |
| `Async.dfy` | the lock-free wake-up of a loop: the pending and busy flags and the descriptor |
| `Barrier.dfy` | the thread barrier made of a mutex and a condition variable |
| `RedBlackTree.dfy`, `SplayTree.dfy` | the two intrusive search trees of `tree.h` |
| `Heap.dfy`, `Queue.dfy` | the pointer-linked binary heap and the circular list |
| `Timer.dfy`, `LoopWatcher.dfy` | timers on the heap, and prepare, check and idle watchers, under callbacks that change them |
| `Punycode.dfy`, `Idna.dfy` | the decoder of RFC 3492 as the specification, and the encoding of host names |
| `Utf8.dfy`, `Wtf8.dfy` | UTF-8 and WTF-8 encoding, and the conversions to and from UTF-16 |
| `Inet.dfy` | IPv4 and IPv6 addresses as text |
| `FsWrite.dfy` | the gathered write loop |
| `Counting.dfy`, `Passes.dfy` | sequence lemmas shared by the protocols and by the two move-then-iterate passes |

**Protocols.** A state holds the queues, the counters and where each thread is; an action is one
region protected by a mutex, or one atomic operation, under sequential consistency. Condition
variables are parked and woken threads, and a parked thread may wake for no reason. One invariant is
kept by every action, so it holds after every run; the theorems are about every run from the initial
state. The pool has 1 to 1024 workers, as `init_threads` enforces, and `uv_cancel` is called on the
loop thread for a request whose done callback has not been called.

**Linked structures.** Nodes are objects and the methods assign their links as the source does. A
ghost sequence lists the nodes in order (trees), level by level (the heap) or round the ring (the
list), and each node has ghost fields that say which part of the sequence hangs below it. Contracts
speak of the sequence; `WalkIsNodes` and `WalkIsAll` show that it is what one meets by following the
links. Mirror images that the macros of `tree.h` write out twice are one method with a direction for
the red-black tree.

**Callbacks.** A callback is any finite list of API calls on any handles; the k-th callback of a pass
makes the calls of `scripts[k]`, or none. What a pass leaves behind is a function of the turns it
takes and of these calls (`Timer.Turns`, `LoopWatcher.AfterTurns`); what that means for a handle is
said without it in `Outcome` and `OnAfter`. A timer is in the heap exactly if it is active.

**Codecs.** The methods follow the source's loops, with 32-bit `unsigned` arithmetic where it can
overflow. Some loops are first restated as recursive functions (`Scan4`, `Scan6`, `Length16`,
`Scanned`); what these mean is said without them: the decoder of RFC 3492 for host names, the
characters of `Pattern` for WTF-8, the address grammar of `AddressText` for parsing. The round trips
and `Accepts4`, `Accepts6`, `ReadsExactly` and `DecodeTail` connect the two.

Five things in the source differ from what one would read into it:

- `heap_remove` sets `heap->min` to NULL when the last node goes (heap-inl.h:189-191), but unlinking
  it has done so before: the branch cannot be taken.
- The test for an embedded IPv4 address with `best.len == 7` (inet.c:125) cannot hold at `i == 6`,
  since that word is inside the run.
- `uv_wtf8_to_utf16` compares with `> 0x10000` and `< 0x10FFFF` (idna.c:396-397), so U+10000 and
  U+10FFFF, which `uv_wtf8_length_as_utf16` accepts and counts, do not come back. `BackExactly` says
  that these two are the only ones.
- `uv__wtf8_decode1` (idna.c:28-68) does not test for three- and four-byte forms that are longer than
  needed, and `uv__utf8_decode1` (idna.c:81-117) tests continuation bytes by the exclusive-or of their
  top bits and falls through to a shorter form at the end of the text; `LongFormPasses` and
  `LooseFormsPass` give inputs, `ReadsExactly` and `AcceptsUtf8` say exactly what passes.
- `SPLAY_REMOVE` removes the node that has the key of `elm` but returns `elm` (tree.h:205), which need
  not be that node.

## Model

| member | source | states |
|---|---|---|
| ThreadPool.StepInv | Sources/SebbuCLibUV/src/threadpool.c:57-345 | Every action of a worker, a poster, a canceller or the loop thread, in any interleaving and with spurious wake-ups, keeps one invariant: exact counters, who holds the mutex, where each request is, what each request has been through, posting order. |
| ThreadPool.RunInv | Sources/SebbuCLibUV/src/threadpool.c:57-345 | The invariant holds after every finite run of actions. |
| ThreadPool.ExactlyOnce | Sources/SebbuCLibUV/src/threadpool.c:281-345 | After any run each request is in exactly one place (a queue, a worker, a cancel under way, the loop's batch, or reported); its work runs at most once and its done callback at most once, with UV_ECANCELED only if a cancel returned 0 and the work never ran, with 0 only if the work ran exactly once and no cancel succeeded. |
| ThreadPool.DoneStays | Sources/SebbuCLibUV/src/threadpool.c:308-345 | A status that has been reported is still the only one reported after any further run. |
| ThreadPool.CancelSucceedsIff | Sources/SebbuCLibUV/src/threadpool.c:281-305 | A cancel of a request not yet reported takes it if and only if no worker holds it and its work has not run. |
| ThreadPool.NoStrandedWork | Sources/SebbuCLibUV/src/threadpool.c:65-138 | After any run, if the mutex is free, the wait condition is false and some worker is parked, then at least as many workers are starting, woken or on their way back to the mutex as there are entries to take, and there is one: no post, cancel, exit message or finished slow job loses a wake-up. |
| ThreadPool.DeliveryComes | Sources/SebbuCLibUV/src/threadpool.c:119-345 | After any run, while finished or cancelled requests wait in the loop's queue its wake-up is flagged or the loop is about to take the queue, and a batch that has been taken is being drained. |
| ThreadPool.SlowLimit | Sources/SebbuCLibUV/src/threadpool.c:45-160 | slow_io_work_running equals the number of workers in the slow branch and is at most (nthreads + 1) / 2; the run-slow message is queued at most once, and is queued whenever slow work is pending. That this branch is for the requests posted as slow is KindsKept. |
| ThreadPool.KindsKept | Sources/SebbuCLibUV/src/threadpool.c:86-160 | After any run, with the kind of each request taken from the posts alone: one posted as slow is never in the ordinary queue nor among the ordinary starts, one posted as ordinary never in the slow ones, and a worker is in the slow branch exactly if the request it holds was posted as slow. |
| ThreadPool.SlowPostsLimited | Sources/SebbuCLibUV/src/threadpool.c:86-160 | After any run at most (nthreads + 1) / 2 workers hold requests that were posted as slow. |
| ThreadPool.SlowTurn | Sources/SebbuCLibUV/src/threadpool.c:84-112 | A worker that finds the run-slow message first, with slow work pending, starts the oldest slow request if and only if fewer than (nthreads + 1) / 2 workers are in the slow branch. |
| ThreadPool.SlowYields | Sources/SebbuCLibUV/src/threadpool.c:84-157 | Slow work waits for all other work in the queue: once the message has been queued, put back or had its turn, it is first in the queue again only when every request posted until then has left the queue. |
| ThreadPool.StartsInOrder | Sources/SebbuCLibUV/src/threadpool.c:86-160 | In the lists of starts, ordinary requests are in the order they were posted, so are slow ones, and nothing that waits was posted before something of its kind that has started. |
| ThreadPool.StartsAreListed | Sources/SebbuCLibUV/src/threadpool.c:86-117 | Those lists hold every request that a worker holds or that has run. |
| ThreadPool.OldestFirst | Sources/SebbuCLibUV/src/threadpool.c:86-160 | Of the requests posted as the same kind, none still waits when a later one is held by a worker or has run. |
| ThreadPool.AtMostOneContinue | Sources/SebbuCLibUV/src/threadpool.c:65-117 | A worker that has gone round the loop once without letting go of the mutex takes a job, parks or exits the next time. |
| ThreadPool.NothingStuck | Sources/SebbuCLibUV/src/threadpool.c:57-345 | When only posts, cancels and spurious wake-ups could still happen, either all workers have exited or the queue is empty and every request has been reported. |
| Async.StepInv | Sources/SebbuCLibUV/src/unix/async.c:65-178 | Every atomic operation of senders, of the loop and of a closing thread keeps the invariant of the pending/busy protocol. |
| Async.RunInv | Sources/SebbuCLibUV/src/unix/async.c:65-178 | The invariant holds after every finite run. |
| Async.NoLostWakeUp | Sources/SebbuCLibUV/src/unix/async.c:65-178 | After any run, a send to an open handle that no callback has answered yet means pending is set, and a set pending flag means the wake-up descriptor is readable, or a sender is between its exchange and its write, or the loop has still to visit the handle. |
| Async.FlagRefines | Sources/SebbuCLibUV/src/unix/async.c:65-178 | Seen through an open handle, every step after any run is a step of a plain flag: a send sets it without a callback, and the start of a callback, which happens only when it is set, clears it and counts one; no other action changes either. |
| Async.BooksAreTrue | Sources/SebbuCLibUV/src/unix/async.c:65-178 | The histories the other theorems speak of are what the run did: whether a send came after the last callback of the handle, how many of its callbacks started, and how many sends found pending 0. |
| Async.EverySendServed | Sources/SebbuCLibUV/src/unix/async.c:65-178 | When only new sends, new handles and closes could still happen, every send on an open handle has been followed by its callback, and callbacks match the sends that set pending, one for one. |
| Async.OneCallPerRaise | Sources/SebbuCLibUV/src/unix/async.c:65-178 | Callbacks never outnumber the sends that changed pending from 0 to 1, and are at most one behind. |
| Async.NoWriteAfterClose | Sources/SebbuCLibUV/src/unix/async.c:92-129 | Once uv__async_spin has returned for a handle, after any further run no sender is between its exchange and its write for it, and it is in no list of the loop. |
| Barrier.StepInv | Sources/SebbuCLibUV/src/thread-common.c:85-149 | Every region of uv_barrier_wait and uv_barrier_destroy between two waits keeps the barrier's invariant, for any number of threads, rounds and spurious wake-ups. |
| Barrier.RunInv | Sources/SebbuCLibUV/src/thread-common.c:85-149 | The invariant holds after every finite run. |
| Barrier.NobodyLeavesEarly | Sources/SebbuCLibUV/src/thread-common.c:85-120 | A thread leaves a round only after exactly threshold threads have entered that round. |
| Barrier.OneSerialThread | Sources/SebbuCLibUV/src/thread-common.c:85-120 | In every round the calls that were counted as serial are exactly one once all have left, and none before; OneSerialReturn and LastGetsOne say it of the values returned. |
| Barrier.OneSerialReturn | Sources/SebbuCLibUV/src/thread-common.c:85-120 | Of the values that the calls of uv_barrier_wait return in any run, in order, each threshold-th is 1 and all others are 0; the calls that have returned are at most the complete groups of threshold calls that have entered, and at most threshold behind the entries. |
| Barrier.LastGetsOne | Sources/SebbuCLibUV/src/thread-common.c:104-120 | In every step after any run a call that returns gets 1 if it is the last of its round to leave and 0 otherwise, and the result of no other thread changes. |
| Barrier.NoOvertaking | Sources/SebbuCLibUV/src/thread-common.c:85-120 | out != 0 implies in == 0 and nobody has entered the next round; the threads inside are those counted by in and out, and all are of one round. |
| Barrier.NobodyStuck | Sources/SebbuCLibUV/src/thread-common.c:85-149 | When only new calls and spurious wake-ups could still happen, out is 0, fewer than threshold threads are inside, all of them waiting for the rest of their round, and nobody waits at the door or to destroy the barrier. |
| Barrier.DestroyedWhenEmpty | Sources/SebbuCLibUV/src/thread-common.c:123-149 | When uv_barrier_destroy goes through, nobody is inside, so its abort cannot be reached. |
| RedBlackTree.Head.Rotate | Sources/SebbuCLibUV/src/include/tree.h:342-380 | Either rotation keeps the pointer tree, parent links and in-order sequence; exactly the nodes round the turned edge get new links. |
| RedBlackTree.Head.InsertColor | Sources/SebbuCLibUV/src/include/tree.h:407-449 | From a tree whose only fault may be a red node under a red parent at the new node, the fix-up loop ends with all colour and black-height rules restored and the in-order sequence as it was. |
| RedBlackTree.Head.Insert | Sources/SebbuCLibUV/src/include/tree.h:598-626 | Returns a node of equal key and changes nothing, or puts elm in at one place of the in-order sequence and returns null; key order, colour rules, black heights and parent links all hold afterwards. |
| RedBlackTree.Head.RemoveStep | Sources/SebbuCLibUV/src/include/tree.h:451-528 | One turn of the delete fix-up, in all its cases: either the missing black is paid and all rules hold, or it has moved to the grandparent, over a strictly wider range of nodes. |
| RedBlackTree.Head.RemoveColor | Sources/SebbuCLibUV/src/include/tree.h:451-528 | From a tree one black short above elm, the fix-up loop ends with all rules restored, the in-order sequence unchanged. |
| RedBlackTree.Head.Remove | Sources/SebbuCLibUV/src/include/tree.h:530-595 | For any member the result is the tree whose in-order sequence is the old one without that node, with key order, colour rules, equal black heights and parent links restored, and that node is returned. |
| RedBlackTree.Head.Find | Sources/SebbuCLibUV/src/include/tree.h:629-644 | Returns the member with the key, null if and only if there is none. |
| RedBlackTree.Head.NFind | Sources/SebbuCLibUV/src/include/tree.h:647-665 | Returns the least member whose key is at least the given one, null only if all keys are less. |
| RedBlackTree.Head.Step | Sources/SebbuCLibUV/src/include/tree.h:668-709 | RB_NEXT and RB_PREV find the in-order neighbour by the links alone, null at the ends. |
| RedBlackTree.Head.MinMax | Sources/SebbuCLibUV/src/include/tree.h:711-726 | RB_MIN and RB_MAX return the first and the last node of the in-order sequence, null for an empty tree. |
| RedBlackTree.Head.InOrderIsRun | Sources/SebbuCLibUV/src/include/tree.h:310-316 | A recursive walk of the links below any node meets exactly its run of the sequence the other contracts speak of. |
| RedBlackTree.Head.WalkIsNodes | Sources/SebbuCLibUV/src/include/tree.h:298-316 | The walk from the root is that sequence. |
| RedBlackTree.Head.HeightWithinBlack | Sources/SebbuCLibUV/src/include/tree.h:53-61 | The height below a node is at most twice its black height, plus one if it is red, and 2 to the black height is at most one more than the number of nodes below. |
| RedBlackTree.Head.HeightBound | Sources/SebbuCLibUV/src/include/tree.h:53-61 | For every tree that insert and remove can leave, 2 to the height is at most (n + 1) squared. |
| RedBlackTree.Head.constructor | Sources/SebbuCLibUV/src/include/tree.h:306-308 | The empty tree meets all the rules. |
| SplayTree.RotateRight | Sources/SebbuCLibUV/src/include/tree.h:88-92 | Rotates a child above the root of what is left to look at; order, spans and both side trees are kept. |
| SplayTree.RotateLeft | Sources/SebbuCLibUV/src/include/tree.h:94-98 | The mirror image. |
| SplayTree.LinkLeft | Sources/SebbuCLibUV/src/include/tree.h:100-104 | Hangs the root and all to its right on the left edge of the right-hand tree and goes on with its left child; all three parts stay in order. |
| SplayTree.LinkRight | Sources/SebbuCLibUV/src/include/tree.h:106-110 | The mirror image. |
| SplayTree.Assemble | Sources/SebbuCLibUV/src/include/tree.h:112-117 | Ties the two side trees and the middle together into one tree with the same in-order sequence, the middle node on top. |
| SplayTree.Descend | Sources/SebbuCLibUV/src/include/tree.h:209-239 | The SPLAY loop ends, with the three parts still in order and no key strictly between the root's and the one looked for. |
| SplayTree.Splay | Sources/SebbuCLibUV/src/include/tree.h:209-241 | For any non-empty tree and any key: the same in-order sequence, and at the root the node with that key if there is one, otherwise a neighbour of where it belongs. |
| SplayTree.WalkIsRun | Sources/SebbuCLibUV/src/include/tree.h:76-83 | A recursive walk of the links below any node meets exactly its run of the in-order sequence. |
| SplayTree.WalkIsAll | Sources/SebbuCLibUV/src/include/tree.h:76-83 | The walk from the root is the whole sequence. |
| SplayTree.Head.Find | Sources/SebbuCLibUV/src/include/tree.h:127-137 | Returns the node with the key, null only if there is none; the set of nodes and their order are kept. |
| SplayTree.Head.Next | Sources/SebbuCLibUV/src/include/tree.h:139-152 | Returns the next node in key order, null after the last. |
| SplayTree.Head.Insert | Sources/SebbuCLibUV/src/include/tree.h:164-187 | Returns a node of equal key and keeps the sequence, or returns null with elm in at its place in key order, the tree valid again. |
| SplayTree.Head.Remove | Sources/SebbuCLibUV/src/include/tree.h:188-207 | If some node has elm's key the sequence loses exactly that node and elm is returned; otherwise null and the same sequence; the tree is valid again. |
| Heap.Heap.Walk | Sources/SebbuCLibUV/src/heap-inl.h:119-136 | The walk along the bits of n below its first ends at the parent of the n-th slot in level order, on the right side of it. |
| Heap.Path | Sources/SebbuCLibUV/src/heap-inl.h:122-124 | The bits are collected in reverse order and fit in 32 bits. |
| Heap.Heap.Relink | Sources/SebbuCLibUV/src/heap-inl.h:72-104 | The exact links after the pointer work of heap_node_swap, for every position of the two nodes. |
| Heap.Heap.Swap | Sources/SebbuCLibUV/src/heap-inl.h:72-104 | Exchanges a node and its parent in level order; the pointer tree is again complete, with correct parent links. |
| Heap.SwapUpOrder | Sources/SebbuCLibUV/src/heap-inl.h:143-147 | Swapping a node with a larger parent keeps the heap order but at the new place of the node. |
| Heap.SwapDownOrder | Sources/SebbuCLibUV/src/heap-inl.h:216-229 | Swapping a node with its least child keeps the heap order but below the new place of the node. |
| Heap.Heap.SiftUp | Sources/SebbuCLibUV/src/heap-inl.h:143-147 | Ends with the whole heap ordered. |
| Heap.Heap.SiftDown | Sources/SebbuCLibUV/src/heap-inl.h:216-229 | Ends with the order right everywhere below, whatever was put in the slot. |
| Heap.Heap.Smallest | Sources/SebbuCLibUV/src/heap-inl.h:221-225 | Picks a least one of a node and its children. |
| Heap.Heap.Append | Sources/SebbuCLibUV/src/heap-inl.h:115-141 | Links the node at the end of the level order, the tree complete again. |
| Heap.Heap.Unlink | Sources/SebbuCLibUV/src/heap-inl.h:163-185 | Unlinks exactly the last node in level order. |
| Heap.Heap.Replace | Sources/SebbuCLibUV/src/heap-inl.h:195-214 | The last node takes over the slot of the removed one, its links and its neighbours' links. |
| Heap.ReplaceOrder | Sources/SebbuCLibUV/src/heap-inl.h:195-237 | Whatever node takes over a slot, the order can fail only there, upwards or downwards: sifting down and then up suffices. |
| Heap.Heap.Insert | Sources/SebbuCLibUV/src/heap-inl.h:106-148 | Adds exactly that node; the tree is again a complete, linked, heap-ordered tree of nelts nodes. |
| Heap.Heap.Remove | Sources/SebbuCLibUV/src/heap-inl.h:150-237 | For any member, including the root and the last: exactly that node is gone and the tree is again complete, linked and heap-ordered with nelts nodes; on an empty heap nothing happens. |
| Heap.Heap.Min | Sources/SebbuCLibUV/src/heap-inl.h:67-69 | Returns a least node, null if and only if the heap is empty. |
| Heap.Heap.Dequeue | Sources/SebbuCLibUV/src/heap-inl.h:239-241 | Removes exactly the node heap_min returns. |
| Heap.RootIsLeast | Sources/SebbuCLibUV/src/heap-inl.h:45-49 | In an ordered heap no node is less than that of the first slot. |
| Heap.PathFits | Sources/SebbuCLibUV/src/heap-inl.h:122-124 | The collected bits of a 32-bit count fit in 32 bits. |
| Heap.Heap.CountsElems | Sources/SebbuCLibUV/src/heap-inl.h:40-43 | nelts is the number of nodes in the heap. |
| Heap.Heap.constructor | Sources/SebbuCLibUV/src/heap-inl.h:62-65 | The empty heap. |
| Timer.ClampIsSaturating | Sources/SebbuCLibUV/src/timer.c:78-80 | The wrap test computes the saturating sum of loop time and timeout. |
| Timer.Loop.Init | Sources/SebbuCLibUV/src/timer.c:58-65 | The new handle joins the initialised ones, inactive and without callback, timeout or repeat; the heap and the queue are as they were. |
| Timer.Loop.TimerStart | Sources/SebbuCLibUV/src/timer.c:68-95 | UV_EINVAL without any change for a closing handle or no callback; otherwise the handle leaves heap and ready queue and is in the heap with the saturating timeout and the next start_id. |
| Timer.Loop.TimerStop | Sources/SebbuCLibUV/src/timer.c:98-110 | The handle is in neither the heap nor the ready queue, and nothing else moves. |
| Timer.Loop.TimerAgain | Sources/SebbuCLibUV/src/timer.c:113-123 | UV_EINVAL without a callback; nothing for a repeat of 0; otherwise stopped and, unless it is closing, in the heap, active, with timeout one repeat after the loop time and the next start_id. |
| Timer.Loop.Close | Sources/SebbuCLibUV/src/timer.c:198-200 | A closed timer is in neither the heap nor the ready queue. |
| Timer.Loop.DueIn | Sources/SebbuCLibUV/src/timer.c:136-141 | The least wait after which the timer is due: it is due after that wait, and after no shorter one. |
| Timer.Loop.NextTimeout | Sources/SebbuCLibUV/src/timer.c:144-162 | -1 exactly when no timer is active; otherwise the time to an earliest timer, 0 if due, capped at INT_MAX. |
| Timer.Loop.CollectDue | Sources/SebbuCLibUV/src/timer.c:171-184 | Moves exactly the timers due now from the heap to the ready queue, in (timeout, start_id) order. |
| Timer.Loop.NextReady | Sources/SebbuCLibUV/src/timer.c:186-192 | Takes the head of the ready queue, and before its callback it is in the heap if and only if it repeats, and then with the timeout one repeat after the loop time; callback, repeat, timeout, active and closing flag of every other handle, the time and the counter are as they were. |
| Timer.Loop.FireNext | Sources/SebbuCLibUV/src/timer.c:186-194 | One turn with any calls in its callback: the head fires after it has been started again for its repeat, exactly the handles in Halted of these calls leave the queue, and the loop time, the counter, and callback, repeat, closing and active flag, timeout and start_id of every handle are what that restart and the calls in order make them. |
| Timer.TakenExactly | Sources/SebbuCLibUV/src/timer.c:68-123 | A timer that can fire is taken out by a callback if and only if one of its calls stops or closes it, starts it with a callback while it is not closing, or starts it again when the calls before have left it a callback and a repeat; a start without a callback, or of a closing handle, takes nothing out. If it is not taken out it can still fire. |
| Timer.WhoFires | Sources/SebbuCLibUV/src/timer.c:165-195 | A due timer fires if and only if no call of a callback that ran before its turn stops it, closes it, starts it with a callback, or starts it again with a repeat that it has by then. |
| Timer.FiredIsArmed | Sources/SebbuCLibUV/src/timer.c:186-194 | A timer that fires in a pass in which no call is for it ends as uv_timer_again left it at its turn. |
| Timer.TurnsKeep | Sources/SebbuCLibUV/src/timer.c:186-194 | A timer that does not fire in a pass and that no call is for is as it was: callback, repeat, flags, timeout and start_id. |
| Timer.Loop.RunTimers | Sources/SebbuCLibUV/src/timer.c:165-195 | For callbacks that make any API calls on any timers the pass ends, and fires, once each and by timeout and then start_id, exactly the timers due at entry that no call of an earlier callback of the pass took out (stop, close, start with a callback, again with a callback and a repeat); a timer that is armed during the pass, or restarted before its turn, does not fire in it. The state of every handle afterwards is what the turns in order make of it: a timer that fired and that no call was for is active if and only if it repeats, and then due one repeat after the loop time of its turn; one that was not due and that no call was for is as it was. |
| Passes.PassFires | Sources/SebbuCLibUV/src/timer.c:186-194 | What a move-then-iterate pass fires: members of the starting line only, distinct, in order, and exactly those not taken out of the line before their turn. |
| Passes.FiredUnlessDropped | Sources/SebbuCLibUV/src/timer.c:186-194 | Each member of the line is waiting, has fired or was taken out; if taken out it never fires. |
| Passes.DroppedAt | Sources/SebbuCLibUV/src/timer.c:186-194 | A timer that was dropped from the line was in what some callback took out before its own turn; FiredFirst says that the first k callbacks fired the first k. |
| Passes.FiredInOrder | Sources/SebbuCLibUV/src/unix/loop-watcher.c:52-59 | What has fired followed by what still waits is always in the order of the starting line. |
| Queue.Link.constructor | Sources/SebbuCLibUV/src/queue.h:27-30 | A link alone is a ring of one. |
| Queue.Empty | Sources/SebbuCLibUV/src/queue.h:32-34 | True exactly if the ring holds the head alone. |
| Queue.Head | Sources/SebbuCLibUV/src/queue.h:36-38 | The entry after the head. |
| Queue.Add | Sources/SebbuCLibUV/src/queue.h:44-49 | The entries of the second ring follow those of the first, both link directions right. |
| Queue.Move | Sources/SebbuCLibUV/src/queue.h:51-67 | The new head takes over all entries in order, the old one is left a ring of one; also when there is no entry. |
| Queue.InsertHead | Sources/SebbuCLibUV/src/queue.h:69-75 | The entry is first in the ring. |
| Queue.InsertTail | Sources/SebbuCLibUV/src/queue.h:77-83 | The entry is last in the ring. |
| Queue.Remove | Sources/SebbuCLibUV/src/queue.h:85-88 | The ring is the old one without the entry; nothing else changes. |
| LoopWatcher.Loop.WatcherStart | Sources/SebbuCLibUV/src/unix/loop-watcher.c:32-39 | Nothing for an active watcher, UV_EINVAL without a callback, otherwise the watcher is first in the list. |
| LoopWatcher.Loop.WatcherStop | Sources/SebbuCLibUV/src/unix/loop-watcher.c:41-46 | The watcher is in neither the loop's list nor the list set aside by a pass; the order of the others is kept. |
| LoopWatcher.Loop.Init | Sources/SebbuCLibUV/src/unix/loop-watcher.c:26-30 | The new watcher joins the initialised ones, inactive and without callback; both lists are as they were. |
| LoopWatcher.Loop.SetAside | Sources/SebbuCLibUV/src/unix/loop-watcher.c:49-52 | All linked watchers are set aside in order, the loop's list is empty. |
| LoopWatcher.Loop.CallNext | Sources/SebbuCLibUV/src/unix/loop-watcher.c:53-59 | One turn with any calls in its callback: the first watcher set aside is back at the end of the list before its callback; both lists and every callback afterwards are what the calls in order make of that, a stop taking a watcher out and an effective start putting one in front, and exactly those the calls stop leave the rest. |
| LoopWatcher.Loop.Run | Sources/SebbuCLibUV/src/unix/loop-watcher.c:48-60 | For callbacks that start or stop any watchers the pass ends and visits, once each and in order, exactly the watchers linked at entry and not stopped before their turn; none started during the pass is visited, and both rings stay well formed. Afterwards the list and the callbacks are what the turns make of them; a watcher is in the list if and only if the last call that stopped it or started it with a callback leaves it so, or it was there and there was no such call; if no callback makes a call the list is as it was. |
| LoopWatcher.PassLeaves | Sources/SebbuCLibUV/src/unix/loop-watcher.c:48-60 | What a pass leaves in the list, from the calls made alone; without calls every watcher is back in its place. |
| Punycode.IntRoundTrip | Sources/SebbuCLibUV/src/idna.c:261-287 | Section 6.2 of RFC 3492 reads back every variable-length integer that the digit loop writes, whatever follows it. |
| Punycode.IntIs | Sources/SebbuCLibUV/src/idna.c:261-287 | The digits written for q are the one sequence of section 3.3 of RFC 3492: only the last digit is below its threshold, and the digits, each worth 36 - t times what the one before it is, add up to q. |
| Punycode.ThresholdClamps | Sources/SebbuCLibUV/src/idna.c:262-268 | The threshold of a digit is k - bias, kept between 1 and 26. |
| Punycode.AdaptIs | Sources/SebbuCLibUV/src/idna.c:289-306 | The bias of section 6.1 of RFC 3492, without its loop: delta damped by 700 for the first integer and by 2 after it, and its share for the code points added, is x; s is the number of divisions by 35 that first bring x to 455 or below, and y what they leave; the bias is 36 * s + 36 * y / (y + 38), and nothing else. |
| Punycode.DecodeTail | Sources/SebbuCLibUV/src/idna.c:227-312 | From the decoder's state at any point of the encoder's walk, decoding the digits still to be written completes exactly the label. |
| Punycode.LabelRoundTrip | Sources/SebbuCLibUV/src/idna.c:189-312 | For every label with a character that is not ASCII the text starts with "xn--" and section 6.2 of RFC 3492 decodes what follows to exactly that label. The bias and the integers in it are pinned by AdaptIs and IntIs, samples by SampleL and SampleLabel. |
| Punycode.SampleL | Sources/SebbuCLibUV/src/idna.c:222-312 | Sample (L) of section 7.1 of RFC 3492, 3B-ww4c5e180e575a65lsy2b, decodes to its eight code points: six insertions, a first delta of 62042, and deltas that the bias divides by 35 once and twice. |
| Punycode.SampleLabel | Sources/SebbuCLibUV/src/idna.c:189-312 | The label U+00E4 U+00F6 is written xn--4ca0b. |
| Punycode.Jump | Sources/SebbuCLibUV/src/idna.c:240-247 | Skipping to the next code point adds (m - n) * (h + 1) to delta and changes neither the digits nor the overflow. |
| Punycode.TooFar | Sources/SebbuCLibUV/src/idna.c:243-256 | With code points left to insert, a count over 32 bits means that some delta of the label does not fit in 32 bits. |
| Punycode.DeltaSplit | Sources/SebbuCLibUV/src/idna.c:222-312 | The decoder splits the running total into exactly the code point and the place that the encoder is at. |
| Punycode.CharsRoundTrip | Sources/SebbuCLibUV/src/idna.c:282-287 | Every digit is below 36, is written as a character of the alphabet that reads back as it, and is never the delimiter. |
| Punycode.CharsInAlphabet | Sources/SebbuCLibUV/src/idna.c:154-154 | Digit d is written as the d-th character of the alphabet. |
| Idna.Decode1 | Sources/SebbuCLibUV/src/idna.c:71-149 | Takes at least one byte and at most all, and what it accepts is a Unicode scalar value. |
| Idna.DecodesUtf8 | Sources/SebbuCLibUV/src/idna.c:71-149 | Every well-formed character of section 4 of RFC 3629 is decoded to its value, in exactly its bytes, whatever follows. |
| Idna.AcceptsUtf8 | Sources/SebbuCLibUV/src/idna.c:71-149 | What the decoder accepts is the encoding of the code point it gives if and only if the bytes it took are a first byte that announces so many and continuation bytes. |
| Idna.LooseFormsPass | Sources/SebbuCLibUV/src/idna.c:81-117 | Two inputs that are not UTF-8 and are accepted: E1 01 01, since only the exclusive-or of the top bits is tested, and F1 81 81 at the end of the text, where the switch falls through to the three-byte form. |
| Idna.WellFormed | Sources/SebbuCLibUV/src/idna.c:138-149 | A well-formed text is accepted and decodes to its code points. |
| Idna.Measure | Sources/SebbuCLibUV/src/idna.c:170-187 | Fails exactly on text the decoder rejects; otherwise h and todo count the ASCII and the other characters. |
| Idna.CopyAscii | Sources/SebbuCLibUV/src/idna.c:197-212 | Writes exactly the ASCII characters in order, the early break included. |
| Idna.NextPoint | Sources/SebbuCLibUV/src/idna.c:228-238 | The least code point from n on, UINT_MAX if there is none. |
| Idna.WriteInt | Sources/SebbuCLibUV/src/idna.c:261-287 | The digit loop ends and writes exactly the variable-length integer of delta; k and t stay in range. |
| Idna.AdaptBias | Sources/SebbuCLibUV/src/idna.c:289-306 | Computes the bias that AdaptIs describes (section 6.1 of RFC 3492), without wrap-around. |
| Idna.JumpOrStop | Sources/SebbuCLibUV/src/idna.c:240-247 | The test x > ~delta / y stops exactly when delta + x * y would not fit in 32 bits. |
| Idna.Skip | Sources/SebbuCLibUV/src/idna.c:254-259 | ++delta == 0 stops only for a label with a delta over 32 bits; otherwise delta is the mathematical count. |
| Idna.Emit | Sources/SebbuCLibUV/src/idna.c:261-307 | Writes one integer, adapts the bias, and reaches the state after the insertion. |
| Idna.EncodeRest | Sources/SebbuCLibUV/src/idna.c:222-314 | The outer loop ends; UV_E2BIG is returned if and only if some delta of the label exceeds UINT_MAX, otherwise exactly the digits of the label are written. |
| Idna.ToAsciiLabel | Sources/SebbuCLibUV/src/idna.c:152-315 | UV_EINVAL for what the decoder rejects, UV_E2BIG if and only if a delta exceeds UINT_MAX, otherwise the label's text, cut off at the end of the buffer. |
| Idna.LabelEndIs | Sources/SebbuCLibUV/src/idna.c:338-342 | A label ends at the first of the four full stops U+002E, U+3002, U+FF0E and U+FF61. |
| Idna.ToAscii | Sources/SebbuCLibUV/src/idna.c:318-367 | For any bytes: UV_EINVAL when there are none; otherwise UV_E2BIG exactly when some label before the first malformed character, or the last one of a well-formed name, is too big; otherwise UV_EINVAL when a character is malformed or the text and its NUL do not fit; otherwise the complete text of the decoded name is there, NUL-terminated at rc - 1. What that text is, without the encoder, is HostRoundTrip, with AdaptIs and IntIs for the integers in it. |
| Idna.HostRoundTrip | Sources/SebbuCLibUV/src/idna.c:318-367 | Split at its full stops, the text has one part for each label: an ASCII label unchanged, any other as "xn--" and text that section 6.2 of RFC 3492 decodes to exactly that label. |
| Idna.SampleHost | Sources/SebbuCLibUV/src/idna.c:318-367 | The text of the name U+00E4 U+00F6 is xn--4ca0b. |
| Wtf8.Decode1 | Sources/SebbuCLibUV/src/idna.c:28-68 | Never looks past the terminating NUL. |
| Wtf8.DecodesEncode | Sources/SebbuCLibUV/src/idna.c:28-68 | Recovers every code point, lone surrogates included, from its bytes and stops at the last of them. |
| Wtf8.ReadsExactly | Sources/SebbuCLibUV/src/idna.c:28-68 | A string is accepted if and only if up to its first NUL it is characters, each a first byte of C2 to F4 or below 80 with its continuation bytes and a value up to 10FFFF, and then lengths, assertions and units are those of their code points. |
| Wtf8.LongFormPasses | Sources/SebbuCLibUV/src/idna.c:49-55 | Three- and four-byte forms longer than needed are among them: E0 80 80 is read as code point 0. |
| Wtf8.SurrogateValue | Sources/SebbuCLibUV/src/idna.c:412-424 | The code point at a place of the text, pairing surrogates only when both halves are there. |
| Wtf8.LengthAsWtf8 | Sources/SebbuCLibUV/src/idna.c:427-457 | Counts exactly the bytes of the text's code points, for a given length as for NUL-terminated text. |
| Wtf8.ToWtf8 | Sources/SebbuCLibUV/src/idna.c:460-560 | Into a fresh buffer: returns 0, with exactly the bytes counted, then NUL. |
| Wtf8.LengthAsUtf16 | Sources/SebbuCLibUV/src/idna.c:370-384 | -1 exactly when the string up to its NUL is not a sequence of characters; otherwise the units of their code points, two for each above 0xFFFF, and one for the NUL. |
| Wtf8.ToUtf16 | Sources/SebbuCLibUV/src/idna.c:387-409 | For the characters of the string: no assertion fails if and only if every code point passes them and the units written are as many as counted; then the target holds exactly those units and a NUL. |
| Wtf8.BackExactly | Sources/SebbuCLibUV/src/idna.c:387-409 | The assertions hold and the units are as many as counted if and only if the text has neither U+10000 nor U+10FFFF; then the units are those of the text. |
| Wtf8.FirstSupplementaryFails | Sources/SebbuCLibUV/src/idna.c:396-403 | U+10000 is counted as two units but stored as one unit 0. |
| Wtf8.ThereAndBack | Sources/SebbuCLibUV/src/idna.c:370-560 | To WTF-8 and back restores every NUL-free sequence of 16-bit units, lone surrogates included, exactly when it has neither U+10000 nor U+10FFFF. |
| Inet.RoundTrip4 | Sources/SebbuCLibUV/src/inet.c:48-59 | inet_pton4's reading of the text of every IPv4 address gives it back. |
| Inet.RoundTrip6 | Sources/SebbuCLibUV/src/inet.c:62-143 | The reading of the text of every IPv6 address gives it back, for every placement of "::" and for embedded IPv4 tails. |
| Inet.FindRun | Sources/SebbuCLibUV/src/inet.c:83-106 | Finds the first longest run of at least two zero words (section 4.2 of RFC 5952), none if there is none. |
| Inet.ToWords | Sources/SebbuCLibUV/src/inet.c:80-82 | The 16 bytes as eight 16-bit words, high byte first. |
| Inet.Format6 | Sources/SebbuCLibUV/src/inet.c:111-137 | The loop writes the text of the words for that run. |
| Inet.Text4Fits | Sources/SebbuCLibUV/src/inet.c:48-59 | With its NUL the text fits in 16 bytes. |
| Inet.Text6Fits | Sources/SebbuCLibUV/src/inet.c:62-143 | With its NUL the text fits in 46 bytes. |
| Inet.Ntop4 | Sources/SebbuCLibUV/src/inet.c:48-59 | UV_ENOSPC exactly when the text and its NUL do not fit in size, otherwise the text. |
| Inet.Ntop6 | Sources/SebbuCLibUV/src/inet.c:62-143 | UV_ENOSPC exactly when the text and its NUL do not fit in size, never for 46 bytes; otherwise a text with the first longest run compressed, which reads back to the address. |
| Inet.TextOf | Sources/SebbuCLibUV/src/inet.c:111-137 | Which text is written, by the kind of address alone: five zero words and ffff, as ::ffff: and the last four bytes in dotted form; six zero words and a seventh that is not zero, as :: and the dotted form; otherwise the words in hexadecimal, the first longest run of zero words as two colons, if any has two. |
| Inet.HexPlain | Sources/SebbuCLibUV/src/inet.c:133-133 | Words are in lower case and without leading zeros. |
| Inet.HexValues | Sources/SebbuCLibUV/src/inet.c:215-216 | The digits the parser knows, of either case, with their values, and no other. |
| Inet.WordBytes | Sources/SebbuCLibUV/src/inet.c:275-276 | A 16-bit group is stored with its high byte first. |
| Inet.Pton4 | Sources/SebbuCLibUV/src/inet.c:175-211 | Accepts a text if and only if it is four decimal octets without leading zeros, up to 255, with dots between, and returns those octets. |
| Inet.Accepts4 | Sources/SebbuCLibUV/src/inet.c:175-211 | The scan accepts exactly the texts that print some four bytes, and gives those bytes. |
| Inet.Shift | Sources/SebbuCLibUV/src/inet.c:278-293 | Moves the bytes after "::" to the end in place, zeros between. |
| Inet.Pton6 | Sources/SebbuCLibUV/src/inet.c:214-298 | Accepts a text if and only if it is an address of section 2.2 of RFC 4291: groups of one to four hexadecimal digits in either case with colons between, perhaps with an IPv4 address last, 16 bytes in all, or at most 14 and one "::"; returns their bytes with zeros for "::". |
| Inet.ReadsAddress | Sources/SebbuCLibUV/src/inet.c:214-298 | Every address of that grammar is read as its bytes. |
| Inet.Accepts6 | Sources/SebbuCLibUV/src/inet.c:214-298 | Nothing else is accepted, and a text has one reading only. |
| Inet.ThereAndBack | Sources/SebbuCLibUV/src/inet.c:62-298 | inet_pton6 applied to what inet_ntop6 writes gives back the address, for every 16 bytes. |
| FsWrite.Kernel.WritevEmulated | Sources/SebbuCLibUV/src/unix/fs.c:399-436 | One pwrite per buffer: the bytes accepted are a prefix of the buffers' bytes, each at its place; the result is their number, and if there are none the answer to the last pwrite, which asked for the first bytes of the buffers at off. |
| FsWrite.Req.BufOffset | Sources/SebbuCLibUV/src/unix/fs.c:1626-1638 | Indexing stays in range, and the buffers from the returned index on hold exactly the bytes after the first size, the first of them trimmed in place. |
| FsWrite.Req.WriteSome | Sources/SebbuCLibUV/src/unix/fs.c:1204-1230 | One call writes a prefix of the chosen buffers at the request's offset, whichever system call is used, and is for all of them, or for one at a time if pwritev is emulated; a result of 0 or less is the kernel's last answer, to a call for the next bytes at that offset. |
| FsWrite.Req.Advance | Sources/SebbuCLibUV/src/unix/fs.c:1667-1673 | After result bytes the request holds exactly the rest, and its offset has moved with them. |
| FsWrite.Req.WriteBatch | Sources/SebbuCLibUV/src/unix/fs.c:1652-1660 | A round of the loop asks for as many of the buffers left as one call may take, never for more than iovmax, and what was accepted is a prefix of the rest at the offset. |
| FsWrite.Req.WriteAll | Sources/SebbuCLibUV/src/unix/fs.c:1640-1683 | For a kernel that accepts any part of any request: what it took is a prefix of the original bytes, each once, in order, at the right offset; the rest is still in the buffers; it stops with buffers left only when the kernel's last answer, to a call for the next of these bytes and for all the buffers left up to iovmax, was 0 or less; the result is the number of bytes taken or, if there are none, that answer; no call is for more than iovmax buffers. |
| FsWrite.SentMore | Sources/SebbuCLibUV/src/unix/fs.c:1652-1674 | Two writes in a row, the second of the rest at the advanced offset, make one write of both. |
| FsWrite.Kernel.Write | Sources/SebbuCLibUV/src/unix/fs.c:413-420 | Repeated while it is interrupted: the result is the first answer of the kernel that is not EINTR, cut down to what was asked, and exactly that many bytes have gone. |

## Left out

- The system-call layer (epoll, kqueue, io_uring, sockets, pipes, processes, file system calls), allocation failure, `errno`, fork handling and environment variables: their behaviour lies outside the repository's own code.
- Weak memory ordering: every atomic operation takes effect at once for all threads.
- `fs-poll.c`, `strscpy.c`, `strtok.c`, error tables, getters and setters: easier members, or a lifecycle without a clean invariant.
- ThreadPool.StepInv: one loop submits to the pool; several loops would each have a finished queue of their own. The wake-up of that loop is one flag here; that it is set while deliveries wait is DeliveryComes, and that an async handle behaves as such a flag is Async.FlagRefines.
- Async.StepInv: the eventfd or pipe is one readable flag, and the read loop of uv__async_io empties it in one action.
- Barrier.StepInv: uv_barrier_init has happened; `threshold` is at least 1.
- RedBlackTree.Head.Insert: keys are integers and never change while a node is in a tree; RB_AUGMENT is empty, as by default.
- SplayTree.Splay: SPLAY_MINMAX and the two operations built on it, which have the loop of SPLAY with a constant comparison, are not modelled. Keys are integers.
- Heap.Heap.Insert: fewer than 2^32 - 1 nodes, as `unsigned int nelts` demands; nodes are compared by timeout and start_id, the one order the repository uses the heap with.
- Timer.Loop.RunTimers: `timer_counter` does not wrap round at 2^64; the heap links and the queue link of a timer, a union in the source, are separate, and a handle is never in both. The ready queue is a sequence; the ring operations of queue.h are proved in Queue and used in LoopWatcher.
- Timer.Loop.Close: of uv_close only what concerns the timer.
- LoopWatcher.Loop.WatcherStart: the handle is not closing, as the API demands.
- Queue.Move: uv__queue_split appears only as the move of a whole list.
- Idna.ToAscii: names of fewer than 2^31 code points, so that the counters of idna.c:170-187 cannot wrap round.
- Wtf8.ToWtf8: only into a buffer it allocates; the size it reports with UV_ENOBUFS for a caller's buffer is not modelled.
- Inet.Pton6: the scope suffix after `%` and the choice by address family in uv_inet_pton and uv_inet_ntop; characters are their codes, and the text has no NUL inside.
- FsWrite.Req.WriteAll: the kernel is a list of answers; the file is what was accepted and where, and the release of the buffers is not modelled.
