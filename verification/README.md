# Proofs about the concurrent and network cores of cpp_example

The repository is a collection of C++ and C demos. Seven of them carry real state,
concurrency or arithmetic, and this project models those and proves properties that
hold of every input, every run or every reachable state:

- `ThreadPool.dfy`: the thread pool, as a system of atomic steps over any number of
  workers, submitters and waiters that share one condition variable;
- `SyncQueue.dfy`: the bounded blocking queue with its two condition variables;
- `DnsName.dfy`, `DnsRequest.dfy`, `DnsResponse.dfy`: the DNS client's codec against
  RFC 1035;
- `Reactor.dfy`: the chunked connection table of the c1000k server, on the heap, and
  the ownership of the connections' buffers;
- `BufferedIO.dfy`: `readn`, `writen`, `readline` and `str_echo` over descriptors that
  deliver, interrupt and fail as a script says;
- `EchoProtocol.dfy`: the half-closing poll client and the echo server as one protocol;
- `PollServer.dfy`: the poll server's client table and its early exit;
- `Rtt.dfy`: the round-trip estimator over exact reals;
- `Sums.dfy`, `Bytes.dfy`: sums over sequences, used by the counting invariants, and
  bytes, joined and stored in arrays.

A concurrent component is a `State`, an `Action`, an `Enabled` predicate and an `Apply`
function; a run is a `Legal` sequence of actions. A step is one critical section, one
access to an atomic or one system call. The classes `ThreadPool.Pool` and
`SyncQueue.Queue` hold the program's fields and run the critical sections the program
writes; each is proved equal to `Apply`.

Where the code does less than its comments or its callers may expect, the code is
modelled and the exact condition is proved:

- `wait_for_all_done` documents that all tasks are done; it waits for an empty queue.
  What is unfinished on a true result is what the workers hold (`WaitTrueMeansQueueEmpty`,
  `WaitReturnsEarly`). A waiter without a timeout returns exactly when the queue is empty
  or the pool is started and not stopped (`UntimedWaitReturnsExactly`); one overtaken by
  `stop` with work queued never does (`StopAbandonsUntimedWaiters`,
  `StopOvertakesWaiter`).
- A task is dropped as expired exactly when it was submitted with a timeout and its
  deadline is past when the worker reads the clock, except that a deadline of 0 is taken
  for none (`ExpiryIsExact`, `ZeroDeadlineNeverPasses`).
- The blocking queue makes progress exactly when its limit is not zero
  (`EveryWorkloadCompletes`, `ZeroCapacityPutsNothing`); a negative limit is compared as
  an unsigned size, and so is none in practice (`NeverAboveLimit`).
- `dns_parse_name` follows the low byte of a pointer (`HighPointerMisread`) and writes a
  dot too many exactly when a name ends by a pointer to the root (`DecompressionAgrees`,
  `TrailingDotHappens`). Its loop ends exactly when it stays inside the message and comes
  to no position twice, and never ends exactly when it does come to one twice
  (`NameOutcome`). Pointers that all lead below the run of labels they end are enough
  (`BackwardPointersEnd`).
- A hostname with a label comes back from its own request exactly when no label is empty
  and none is longer than 191 bytes: the decoder takes a longer length for a pointer
  (`RoundTrip`, `LongLabelsMisread`, `LongLabelHappens`). The skip of the question, which
  does not look for pointers, ends with the request exactly when no label is empty, for
  labels up to 255 bytes. The flags of the request stay zero, because line 55 of the
  client compares where it would assign.
- The response walker takes every owner for two bytes. It stays in step with
  pointer-owned records exactly at records of type A or CNAME or without data, and with a
  root-owned record of class IN exactly if its data is one byte (`InStepExactly`,
  `WalkInStepExactly`); an AAAA record and an address of the root put it out of step
  (`Ipv6OutOfStep`, `RootOwnerOutOfStep`).
- `readline` returns one more than it stored exactly when the buffer fills without a
  newline (`LineReader.Readline`).
- The poll server serves an unpolled connection exactly when its uninitialised `revents`
  say readable and another entry is reported without being readable (`Round`,
  `ServesUnpolled`, `UnpolledServiceHappens`). It does not notice a failed poll, and acts
  on the `revents` of an earlier one (`Round`).
- The echo client's output equals its input exactly when no write to standard output was
  short (`EchoIsFaithful`, `ShortWriteLoses`).
- The c1000k server hands `send` its whole 128-byte buffer, whatever `recv` delivered, and
  ignores how much of it `send` accepts. The peer gets back its messages exactly when each
  send accepts as many bytes as its receive delivered; where every send takes the whole
  buffer, exactly when every receive filled it; where every receive filled it, exactly
  when every send takes all of it (`EveryReplyIsOwn`, `FirstExchange`). A reply never
  holds a byte of another connection.
- `start` reports false on success too, and `rtt_timeout` doubles past the maximum.

## Model

| member | source | states |
|---|---|---|
| ThreadPool.EveryRunIsSafe | thread_pool/demo_threadpool.cpp:58-119 | in every reachable state: the two coupled wakeup invariants, `running_count` is the number of workers between `++` and `--`, tasks leave in submission order, each dequeued task is held by one worker or finished once, unexpiring tasks never expire, a terminated pool has no sleeping worker |
| ThreadPool.PendingWorkFindsWorker | thread_pool/demo_threadpool.h:144-148 | no lost work wakeup, although `notify_one` may pick a waiter |
| ThreadPool.NoWaiterIsStranded | thread_pool/demo_threadpool.cpp:60-70 | a sleeping waiter always has a pending task or a worker before its end check to wake it |
| ThreadPool.StepKeeps | thread_pool/demo_threadpool.cpp:14-119 | every step of every thread keeps all the invariants |
| ThreadPool.ExecReachesWorker | thread_pool/demo_threadpool.h:144-148 | after `notify_one`, whoever it picks, some worker is not asleep |
| ThreadPool.AnySleeperMayBePicked | thread_pool/demo_threadpool.h:144-148 | `exec` can wake any one sleeper, worker or waiter, and leaves the others alone |
| ThreadPool.EndCheckKeeps | thread_pool/demo_threadpool.cpp:110-116 | the end check leaves a waiter asleep only if another task or worker will reach its own check |
| ThreadPool.EveryPoolDrains | thread_pool/demo_threadpool.cpp:73-119 | once submissions pause the pool takes a bounded number of steps and rests with every task finished exactly once, every worker asleep and every waiter returned |
| ThreadPool.ExpiryIsExact | thread_pool/demo_threadpool.cpp:99-106 | in every run, told from the calls of `exec` and the clock readings: task k carries the deadline of call k, and a handled task is dropped if and only if it has a timeout and its deadline, unless 0, is before the reading |
| ThreadPool.HandlingIsTimely | thread_pool/demo_threadpool.cpp:101-106 | the task in hand is judged by the call that submitted it |
| ThreadPool.ZeroDeadlineNeverPasses | thread_pool/demo_threadpool.h:133-133 | a run in which a task whose deadline is 0 is run after that time |
| ThreadPool.QuietPool | thread_pool/demo_threadpool.cpp:73-119 | a pool that can take no step of its own is drained, or is stopped with all workers gone; with an empty queue every waiter has returned, stopped or not |
| ThreadPool.WorkProgress | thread_pool/demo_threadpool.cpp:94-119 | every worker and waiter step decreases a measure, wakeups by `notify_all` included |
| ThreadPool.WaitTrueMeansQueueEmpty | thread_pool/demo_threadpool.cpp:58-71 | on a true result the unfinished tasks are those held by workers, at most one each, and none exactly when no worker holds one |
| ThreadPool.WaitReturnsEarly | thread_pool/demo_threadpool.h:152-157 | a run that returns true before the only submitted function has begun |
| ThreadPool.NothingDequeuedAfterStop | thread_pool/demo_threadpool.cpp:39-45 | once `_terminate` is set nothing is dequeued in any run, `start` included |
| ThreadPool.StopFinishesOnlyTasksInHand | thread_pool/demo_threadpool.cpp:39-56 | after `_terminate` only tasks in hand can finish, and no worker sleeps |
| ThreadPool.StopReturns | thread_pool/demo_threadpool.cpp:47-56 | once the workers can take no further step every join of `stop` returns; then `running_count` is 0 and each submission has finished once or is still queued |
| ThreadPool.StopAbandonsUntimedWaiters | thread_pool/demo_threadpool.cpp:65-67 | an untimed waiter left with a non-empty stopped queue never returns, in any run |
| ThreadPool.UntimedWaitReturnsExactly | thread_pool/demo_threadpool.cpp:58-71 | from every reachable state the pool rests within a bounded number of its own steps, and a pending untimed waiter has then returned if and only if the queue was empty or the pool was started and not stopped |
| ThreadPool.StopOvertakesWaiter | thread_pool/demo_threadpool.cpp:39-71 | a run that leaves an untimed waiter pending behind a queued task in a stopped pool |
| ThreadPool.Pool.constructor | thread_pool/demo_threadpool.cpp:8-8 | the initial state: one worker configured, nothing queued, not terminated |
| ThreadPool.Pool.Initial | thread_pool/demo_threadpool.cpp:14-22 | sets the size only while there are no workers |
| ThreadPool.Pool.Start | thread_pool/demo_threadpool.cpp:24-37 | starts exactly the configured number of workers if there are none, and reports false either way |
| ThreadPool.Pool.Exec | thread_pool/demo_threadpool.h:131-150 | appends the new submission, expiring at now + timeout or never for timeout 0, and wakes the sleeper picked |
| ThreadPool.Pool.Get | thread_pool/demo_threadpool.cpp:73-92 | takes the oldest item, sleeps, or gives up on `_terminate` |
| ThreadPool.Pool.ReadTerminate | thread_pool/demo_threadpool.cpp:95-95 | leaves the loop exactly when `_terminate` is set |
| ThreadPool.Pool.Begin | thread_pool/demo_threadpool.cpp:99-99 | counts the worker as running |
| ThreadPool.Pool.Execute | thread_pool/demo_threadpool.cpp:100-108 | runs what the worker holds if and only if it has no expiry or its expiry is not before now, and records which |
| ThreadPool.Pool.Finish | thread_pool/demo_threadpool.cpp:110-110 | uncounts the worker |
| ThreadPool.Pool.EndOfTask | thread_pool/demo_threadpool.cpp:112-116 | wakes everyone exactly when nothing runs and nothing is queued |
| ThreadPool.Pool.WaitForAllDone | thread_pool/demo_threadpool.cpp:58-71 | returns true if and only if the queue is empty, false if and only if it is not and the time is up, else sleeps |
| ThreadPool.Pool.BeginStop | thread_pool/demo_threadpool.cpp:41-45 | sets `_terminate` and wakes everyone |
| ThreadPool.Pool.EndStop | thread_pool/demo_threadpool.cpp:47-56 | clears the workers once all have exited |
| SyncQueue.EveryRunIsSafe | condition_variable/sync_queue_by_lock_guard.h:29-52 | in every state of every run: puts are takes followed by the queue, the bound, every producer's items in its own order, and no lost wakeup on either condition variable |
| SyncQueue.NeverAboveLimit | condition_variable/sync_queue_by_lock_guard.h:17-26 | in every run the queue holds at most the number given to the constructor, or that number plus 2^64 if it is negative |
| SyncQueue.PutsExactlyBelowLimit | condition_variable/sync_queue_by_lock_guard.h:32-37 | a step of `Put` pushes the next item if and only if the size is not the limit |
| SyncQueue.PutKeepsCounts | condition_variable/sync_queue_by_lock_guard.h:29-39 | while a consumer sleeps the woken consumers cover the queue, and while a producer sleeps the woken producers cover the free slots, across `Put` |
| SyncQueue.TakeKeepsCounts | condition_variable/sync_queue_by_lock_guard.h:41-52 | the same across `Take` |
| SyncQueue.PutKeepsFifo | condition_variable/sync_queue_by_lock_guard.h:37-38 | `Put` appends the producer's next item, within the bound that the `==` of `IsFull` needs |
| SyncQueue.StuckShape | condition_variable/sync_queue_by_lock_guard.h:32-47 | when nobody can move, consumers sleep only on an empty queue and producers only on a full one, never both |
| SyncQueue.NotStuckMeansWork | condition_variable/sync_queue_by_lock_guard.h:29-52 | otherwise somebody has a step to take |
| SyncQueue.AnySleeperMayBePicked | condition_variable/sync_queue_by_lock_guard.h:38-51 | either `notify_one` may wake any sleeper of its kind |
| SyncQueue.EveryWorkloadCompletes | condition_variable/sync_queue_by_lock_guard.h:29-52 | any balanced workload of any number of threads, with any limit but zero, ends within a bounded number of steps with everything put and taken in order |
| SyncQueue.ZeroCapacityPutsNothing | condition_variable/sync_queue_by_lock_guard.h:17-19 | with limit zero no run ever puts anything |
| SyncQueue.Queue.Put | condition_variable/sync_queue_by_lock_guard.h:29-39 | one pass of `Put`: sleeps if and only if the size is the limit, else pushes the next item and wakes the consumer picked |
| SyncQueue.Queue.Take | condition_variable/sync_queue_by_lock_guard.h:41-52 | one pass of `Take`: sleeps if and only if the queue is empty, else pops the front and wakes the producer picked |
| DnsName.PointerMask | network/dns/sync_dns_client.cpp:92-95 | the decoder's notion of a pointer is the mask test |
| DnsName.TestMask | network/dns/sync_dns_client.cpp:92-95 | `is_pointer` computes it |
| DnsName.HaltsWithinLength | network/dns/sync_dns_client.cpp:122-142 | a name that any number of turns decodes is decoded by one turn a byte of the message, to the same text |
| DnsName.NameOutcome | network/dns/sync_dns_client.cpp:122-142 | the loop ends if and only if it stays inside the message and comes to no position twice; it takes turns for ever if and only if it comes to a position twice |
| DnsName.CycleNeverEnds | network/dns/sync_dns_client.cpp:126-128 | a position visited again after any number of turns means no result with any number of turns |
| DnsName.BackwardPointersEnd | network/dns/sync_dns_client.cpp:122-142 | a name inside the message whose pointers each lead below the run of labels they end has a result |
| DnsName.SelfPointerDiverges | network/dns/sync_dns_client.cpp:126-128 | the shortest cycle: a pointer to itself has no result with any number of turns |
| DnsName.TextIsJoinedLabels | network/dns/sync_dns_client.cpp:118-143 | for pointers below 256 the loop writes section 4.1.4's labels joined by dots, with a trailing dot exactly when the name ends by a pointer |
| DnsName.DecompressionAgrees | network/dns/sync_dns_client.cpp:118-143 | so it agrees with the standard if and only if the name does not end by a pointer |
| DnsName.StandardNamesAgree | network/dns/sync_dns_client.cpp:118-143 | the same from the bytes alone: labels under 64 bytes and pointers below 256 that lead back are enough for both decoders to end |
| DnsName.TrailingDotHappens | network/dns/sync_dns_client.cpp:136-140 | the label "a" followed by a pointer to a root byte is decoded as "a." |
| DnsName.HighPointerMisread | network/dns/sync_dns_client.cpp:126-128 | a pointer to offset 256 is read as a pointer to offset 0 |
| DnsName.ParseName | network/dns/sync_dns_client.cpp:118-143 | writes exactly that text behind the bytes already there, touches nothing else, and advances the length |
| DnsRequest.TokensFit | network/dns/sync_dns_client.cpp:66-86 | the encoded labels never exceed the allocation, and fill it exactly when no label is empty |
| DnsRequest.TokensPart | network/dns/sync_dns_client.cpp:73-85 | a dot anywhere in a hostname parts the labels before it from those behind it, so leading, trailing and doubled dots add none |
| DnsRequest.TokenOfRun | network/dns/sync_dns_client.cpp:73-85 | a hostname without dots is its one label |
| DnsRequest.CreateQuestion | network/dns/sync_dns_client.cpp:61-90 | for every hostname, no write outside the buffer, and the encoded labels with their terminator in it |
| DnsRequest.BuildRequest | network/dns/sync_dns_client.cpp:97-116 | the identifier, the header's other ten bytes, the name, and 0,1,0,1 for type A and class IN; the rest of the buffer untouched, and the total length |
| DnsRequest.WireDecodes | network/dns/sync_dns_client.cpp:122-142 | encoded labels anywhere in a message decode to the labels joined by dots |
| DnsRequest.WireSkips | network/dns/sync_dns_client.cpp:159-164 | the question-skipping loop lands behind encoded labels of up to 255 bytes |
| DnsRequest.WrappedLengthEndsSkip | network/dns/sync_dns_client.cpp:78-79 | a label of 256 bytes is encoded with length zero and ends the skip at once |
| DnsRequest.RoundTrip | network/dns/sync_dns_client.cpp:61-143 | for every hostname with a label: decoding the request at offset 12 gives the hostname if and only if no label is empty and none is longer than 191 bytes; with lengths up to 255, skipping its question gives the returned length if and only if no label is empty |
| DnsRequest.LongLabelsMisread | network/dns/sync_dns_client.cpp:126-128 | no message decodes anywhere to a hostname with a label of 192 bytes or more |
| DnsRequest.TextHasDots | network/dns/sync_dns_client.cpp:122-142 | every stretch of 192 decoded bytes holds a dot |
| DnsRequest.LongLabelHappens | network/dns/sync_dns_client.cpp:66-86 | hostnames of 192 bytes or more without a dot have no empty label and such a long one |
| DnsRequest.ShortHostname | network/dns/sync_dns_client.cpp:168-168 | any hostname that fits the client's name buffers has labels the decoder reads as labels |
| DnsResponse.SkipName | network/dns/sync_dns_client.cpp:159-164 | the inner loop computes the end of a question's name |
| DnsResponse.ReadName | network/dns/sync_dns_client.cpp:178-181 | the name at the front of a buffer of 128 bytes, zeros behind it |
| DnsResponse.ZerosEnd | network/dns/sync_dns_client.cpp:210-211 | so the C string in the buffer is the one in the name |
| DnsResponse.CopyString | network/dns/sync_dns_client.cpp:210-211 | the bytes before the first zero, and no more |
| DnsResponse.ParseAnswer | network/dns/sync_dns_client.cpp:177-220 | one turn of the answer loop is the step that the walk is made of |
| DnsResponse.ParseResponse | network/dns/sync_dns_client.cpp:145-225 | the items of the whole walk |
| DnsResponse.TwoByteNamesArePointers | network/dns/sync_dns_client.cpp:182-182 | an owner name takes two bytes if and only if it is a pointer |
| DnsResponse.InStepExactly | network/dns/sync_dns_client.cpp:182-219 | behind a pointer owner the walker has a result if and only if the names fit 127 and 128 bytes, and reaches the next record if and only if the type bytes are 0,1 or 0,5 or the length bytes are 0,0; behind a root owner of class IN if and only if there is one byte of data; behind any owner if and only if twelve bytes and the length it goes by are the record |
| DnsResponse.AddsExactly | network/dns/sync_dns_client.cpp:201-218 | a pointer-owned record adds its owner and four bytes if and only if its type bytes are 0,1 and its length bytes 0,4 |
| DnsResponse.AliasThenAddress | network/dns/sync_dns_client.cpp:196-218 | every response of a CNAME and a four-byte address behind it, both pointer-owned, parses to that address |
| DnsResponse.Ipv6OutOfStep | network/dns/sync_dns_client.cpp:195-219 | an AAAA record with a pointer owner leaves the cursor in its own data |
| DnsResponse.RootOwnerOutOfStep | network/dns/sync_dns_client.cpp:182-182 | so does an A record owned by the root |
| DnsResponse.WalkInStep | network/dns/sync_dns_client.cpp:177-220 | over such records the cursor is at the start of each in turn and the items are exactly the four-byte address records, in order, with owner and address |
| DnsResponse.WalkInStepExactly | network/dns/sync_dns_client.cpp:177-220 | over pointer-owned records the cursor is at every record in turn if and only if each has type bytes 0,1 or 0,5 or no data |
| DnsResponse.ResponseIsItsAddresses | network/dns/sync_dns_client.cpp:145-225 | so the whole response parses to its address records |
| DnsResponse.OwnRequest | network/dns/sync_dns_client.cpp:46-116 | for every hostname: the identifier first, zero flags, one question, no records of any kind, and the fields behind the name both 1; with labels up to 255 bytes the question is skipped to the returned length if and only if no label is empty |
| DnsResponse.OwnerAgrees | network/dns/sync_dns_client.cpp:181-211 | the owner reported is the standard's name |
| Reactor.Table.Last | network/demo4_c1000k_server.cpp:236-239 | the walk ends at the last block |
| Reactor.Table.Resize | network/demo4_c1000k_server.cpp:232-265 | appends one zeroed block, or changes nothing and reports which allocation failed; the count stays the length of the acyclic list |
| Reactor.Table.BlockAt | network/demo4_c1000k_server.cpp:223-227 | the walk finds the block of that number |
| Reactor.Table.Grow | network/demo4_c1000k_server.cpp:217-220 | exactly the missing blocks are added; the loop ends within a run of allocations if and only if as many of them succeed as blocks are missing |
| Reactor.Table.Lookup | network/demo4_c1000k_server.cpp:207-230 | the slot of the descriptor; exactly as many blocks as needed; every earlier slot keeps its place and contents; new ones are zeroed |
| Reactor.SlotsAreDistinct | network/demo4_c1000k_server.cpp:214-229 | two descriptors have the same slot if and only if they are equal |
| Reactor.Table.Store | network/demo4_c1000k_server.cpp:128-133 | a write through a slot changes what that descriptor holds and nothing else |
| Reactor.Table.Load | network/demo4_c1000k_server.cpp:138-140 | reads back what was stored for the descriptor |
| Reactor.EveryRunIsSound | network/demo4_c1000k_server.cpp:96-172 | in every run of events, descriptors reused or not: no freed buffer is read, written or freed again, every live buffer belongs to one open connection, and allocations minus frees is twice the connections |
| Reactor.EveryServerRunIsSound | network/demo4_c1000k_server.cpp:71-172 | the same for every run of the server from its start |
| Reactor.OpenIsAcceptedAndNotClosed | network/demo4_c1000k_server.cpp:106-158 | in every run a connection is open if and only if it was accepted and its peer has not closed it since; a failed `recv` closes nothing |
| Reactor.OnlyOwnReceive | network/demo4_c1000k_server.cpp:136-170 | an event changes the slot or the buffers of a connection that stays open only if it is its own receive, which writes the data in front of both |
| Reactor.NoSharing | network/demo4_c1000k_server.cpp:127-133 | no two open connections use one buffer |
| Reactor.HandedIsMessage | network/demo4_c1000k_server.cpp:142-163 | what is handed to `send` begins with what was received and equals it if and only if it filled the buffer |
| Reactor.EveryReplyIsOwn | network/demo4_c1000k_server.cpp:106-170 | in every run, reading and writing in turn: the messages and replies recorded are those of the events; each reply is the beginning of what the connection's own messages left in its buffer; and the peer gets its messages back if and only if each send accepts as many bytes as its receive delivered; as streams, if and only if every receive is full when all sends are, and every send when all receives are |
| Reactor.RunIsRecorded | network/demo4_c1000k_server.cpp:142-163 | the history of a connection is the data of its receives and the counts of its sends since it was accepted |
| Reactor.StepEchoes | network/demo4_c1000k_server.cpp:136-170 | every event keeps both buffers of every connection equal to its own messages laid over each other |
| Reactor.FirstExchange | network/demo4_c1000k_server.cpp:142-163 | for any message and any result of `send`, a run whose reply is that many bytes of the message with zeros behind it |
| Reactor.Server.OnAccept | network/demo4_c1000k_server.cpp:106-134 | fills the slot of the new descriptor with two fresh buffers |
| Reactor.Server.OnReadable | network/demo4_c1000k_server.cpp:136-158 | copies the whole read buffer, frees both buffers and the slot at the end of the stream, and changes nothing after a failed `recv` |
| Reactor.Server.OnWritable | network/demo4_c1000k_server.cpp:159-170 | hands the whole write buffer to `send` and reads again, whatever part of it is accepted |
| BufferedIO.ReadN | basic_lib/readn.c:4-26 | for any chunking, the first min(n, available) bytes; after an error the bytes read before it |
| BufferedIO.WriteN | basic_lib/writen.c:4-25 | for any chunking, all n bytes once and in order, or a proper prefix and -1 after an error or an empty write |
| BufferedIO.StrEcho | basic_lib/str_echo.c:3-17 | what is written is always a prefix of what was sent, and all of it on a clean end |
| BufferedIO.LineIsFirst | basic_lib/readline.c:28-49 | the line holds no earlier newline and stops short only at a newline or the end of the stream |
| BufferedIO.LineIsUnique | basic_lib/readline.c:28-49 | nothing else is the line of a stream |
| BufferedIO.LineReader.Refill | basic_lib/readline.c:12-21 | refills an empty read-ahead with up to 4096 bytes, losing nothing |
| BufferedIO.LineReader.MyRead | basic_lib/readline.c:8-26 | hands out the next byte of read-ahead and descriptor |
| BufferedIO.LineReader.Collect | basic_lib/readline.c:35-45 | the bytes up to a newline, the end, a full buffer or an error |
| BufferedIO.LineReader.Readline | basic_lib/readline.c:28-49 | for any chunking, the line of the stream, terminated, the rest left to read; at most maxlen - 1 bytes, fewer only at a newline or the end of the stream; the count is their number, and maxlen if and only if they fill the buffer without a newline; a call that reads leaves the read-ahead count at -1 if and only if it fails |
| BufferedIO.LineReader.ReadLines | basic_lib/readline.c:4-49 | any sequence of calls, over any chunking: the lines of the stream in order, and lines, bytes collected before a failed read and what is left make up the stream |
| BufferedIO.LineReader.ReadlineBuf | basic_lib/readline.c:51-57 | the read-ahead and its count, -1 after a failed read |
| BufferedIO.RunsConserve | basic_lib/readline.c:4-49 | the lines that `ReadLines` hands out and what it leaves are the stream in order, losing and repeating nothing |
| BufferedIO.RunsFinish | basic_lib/readline.c:28-49 | as many such lines as there are bytes are all of them |
| EchoProtocol.EchoIsFaithful | network/echo/d4_poll_echo_client.cpp:65-95 | in every run all input is accounted for in order, and the client ends normally if and only if it has seen the end of its input; without errors it never quits and returns having received the whole input, its output equal to it if and only if no write was short |
| EchoProtocol.OutputIsWritten | network/echo/d4_poll_echo_client.cpp:71-81 | in every run standard output holds, byte for byte, of each chunk received as much as was written |
| EchoProtocol.ReportsAreHandled | network/echo/d4_poll_echo_client.cpp:69-95 | what one poll reported is handled before the next, the socket first |
| EchoProtocol.ClientEndsExactly | network/echo/d4_poll_echo_client.cpp:69-95 | the client ends exactly at the end of the socket's stream, at an error on it or at a failed send, and normally exactly if it has seen the end of its input; a failed read of the input counts as its end |
| EchoProtocol.ReadsUpToBuffer | basic_lib/str_echo.c:9-12 | the client reads at most 1024 bytes at a time, the server 4096, and any number up to that |
| EchoProtocol.ShortWriteLoses | network/echo/d4_poll_echo_client.cpp:65-95 | an error-free run that returns normally with its input received and nothing written to standard output |
| EchoProtocol.StepConserves | basic_lib/str_echo.c:9-16 | every read and write of either side, of any size, keeps every byte in one place and in order |
| EchoProtocol.NeverStuck | network/echo/d4_poll_echo_client.cpp:65-95 | an error-free exchange that has not returned has an enabled step |
| EchoProtocol.WorkProgress | basic_lib/writen.c:13-23 | every step other than an interrupted read decreases a measure |
| EchoProtocol.EveryExchangeCompletes | network/echo/d4_poll_echo_client.cpp:53-96 | every error-free exchange ends in the client's normal return, within a bound linear in the input |
| PollServer.Server.constructor | network/echo/d4_poll_echo_server.cpp:33-60 | the listener in slot 0 and the other 4095 slots free |
| PollServer.Server.AddClient | network/echo/d4_poll_echo_server.cpp:80-95 | the connection goes to the first free slot, if any, and the table stays well formed |
| PollServer.Server.ScanLoop | network/echo/d4_poll_echo_server.cpp:100-113 | serves open readable slots in order and stops early only when as many are served as were counted |
| PollServer.ScanComplete | network/echo/d4_poll_echo_server.cpp:100-113 | however the scan stops, no reported readable client is left unserved |
| PollServer.Server.Scan | network/echo/d4_poll_echo_server.cpp:99-113 | the slots served, and the table after the closes; after a failed poll at most the first open slot whose old `revents` say readable |
| PollServer.Server.Round | network/echo/d4_poll_echo_server.cpp:63-114 | a round serves exactly the clients poll reported readable, plus the unpolled new one exactly under the stated condition; a round after a failed poll accepts and serves nobody, or serves at most one client; the listener stays in slot 0 and each client in one slot |
| PollServer.ReadyAreReported | network/echo/d4_poll_echo_server.cpp:66-66 | fewer entries are readable than reported exactly when some entry is reported otherwise |
| PollServer.ReportedCounts | network/echo/d4_poll_echo_server.cpp:66-66 | the count is the number of entries with non-zero `revents` |
| PollServer.ReadyOrdered | network/echo/d4_poll_echo_server.cpp:100-103 | clients are served in slot order |
| PollServer.UnpolledServiceHappens | network/echo/d4_poll_echo_server.cpp:93-103 | a table and a poll of it under which the new connection goes to a slot that was not polled and is served at once |
| Rtt.RttInfo.Init | basic_lib/rtt.c:22-35 | the first timer is three seconds, and the retransmission count is left alone |
| Rtt.RttInfo.NewPack | basic_lib/rtt.c:56-60 | the retransmission count starts again |
| Rtt.RttInfo.Start | basic_lib/rtt.c:62-67 | the timer rounded to the nearest second |
| Rtt.RttInfo.Stop | basic_lib/rtt.c:80-102 | a sample of ms milliseconds: the program's update is rule 2.3 of section 2 of RFC 6298 with alpha 1/8 and beta 1/4, in numbers from ms and the old fields, and the timer is clamped to 2 and 60 seconds |
| Rtt.RttInfo.Timeout | basic_lib/rtt.c:111-119 | doubles the timer without a limit, and gives up if and only if three retransmissions went before |
| Rtt.Convergence | basic_lib/rtt.c:80-102 | for a constant sample c, the estimate, the deviation and the timer close on c, 0 and c clamped at the rate 7/8 a sample, with their exact bounds |
| Rtt.DecayedIsGeometric | basic_lib/rtt.c:94-94 | the bound of `Convergence` is the initial distance times (7/8)^k |
| Rtt.RunBounds | basic_lib/rtt.c:12-119 | in every run: both averages stay within the samples, the timer is the clamped formula times 2 to the expiries since, and never below the minimum |
| Rtt.RetransmitBudget | basic_lib/rtt.c:56-119 | a packet is given up on exactly the fourth expiry |
| Rtt.AlarmNeverBelowMinimum | basic_lib/rtt.c:62-67 | the alarm is never below two seconds in any run |

## Left out

- DNS header identifiers, TTLs, `inet_ntop` text, sockets and the asynchronous client, whose codec is the same code.
- Domain names whose decoding reads outside the message or overruns a name buffer: the program is undefined there, and the model gives no result.
- Hostnames without any label (empty, or dots only): `dns_create_question` then leaves its whole buffer as `malloc` returned it, and `RoundTrip` says nothing.
- Failed allocations in `dns_create_question` and `dns_parse_response`, which return an error code at once.
- Reactor.Table.Lookup: returns for any finite run of failed allocations; with allocations that fail for ever the growth loop outlasts every run, as `Grow` states, and there is no result to state.
- DnsRequest.RoundTrip: says nothing about the skip of a question with a label of 256 bytes or more, whose length byte wraps around; where it lands depends on the bytes of the label.
- Connections that have been closed: their exchanges are described up to the close.
- Failed `calloc` of a connection's buffers, which the server does not check, and the descriptor 0, for which its lookup returns a null pointer that it uses.
- Event registration with epoll, and the callbacks and `event` field of a slot, which nothing uses.
- The same static read-ahead used for two descriptors in turn: `readline` then continues with the bytes left from the first, which its contract states as the stream it reads.
- Kernel buffer limits, resets and failed polls in the echo client, and a poll that reports the end of standard input other than as readable.
- Data races on `_terminate` and on the list of workers while `stop` joins them: reads are atomic steps.
- Task bodies that throw, block, stop the pool or wait for it, and futures: a body is one step that ends.
- Concurrent callers of `stop`.
- Overflow of 64-bit times in `exec`, of the 32-bit counters, and float rounding in the estimator.
- Templates, smart pointers, lambdas and the other language demos, the libev, select and epoll servers, address, signal and daemon helpers: thin layers or easy members.
