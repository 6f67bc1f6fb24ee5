# Verified models of the linuxAppSamp concurrency and transfer samples

Most programs of the repository show one Linux call each. Four groups have state, a protocol or
arithmetic of their own, and this project models those in Dafny and proves what they keep.

**Thread start handshake** (`Handshake.dfy`, `HandshakeRuns.dfy`; `posix_thread_4fifo.c`). Main passes every thread the
address of its own loop variable. The model is a transition system over single accesses to shared
state: two mutex owners, the wait on the condition variable (which unlocks and starts waiting in
one step), a program counter for main and for each of any number of threads, and a spurious return
of `pthread_cond_wait` at any moment of the wait. Proved for every interleaving, with spurious
wake-ups or without: nothing gets stuck, every run ends after one fixed number of steps and one more
for each spurious wake-up, of which there are at most as many as threads (and there can be that
many), every thread counts to the full, and every result cell is filled before main reads and frees
it. If every return follows a signal, then also: each thread reads its own number, no signal is lost,
no thread passes the start gate before all have read, the lines carry the right numbers, and the run
length is one exact number. With spurious wake-ups argument passing fails for every positive number
of threads, so the condition is exact; progress and termination do not need it. A single one is
enough to give every thread the number after its own, because each late signal ends the wait for the
next thread. `HandshakeRuns.dfy` also gives the numbers a thread can read, the lines a run has
printed, and who can move when, each exactly.

**Condition loop** (`ConditionLoop.dfy`, `mutex_signal.c`). The same wait inside a while loop, with
any number of spurious wake-ups. The finished runs print exactly the logs
locked, created, signaled (n times), thread locked, thread signal, then signaled and unlocked with
"thread > unlocked" anywhere among them: every run prints one of these, and every one of these is
printed by some run, with n spurious wake-ups or one more. Only n and the place of that last line
vary.

**Semaphore-guarded counter** (`SemaphoreCounter.dfy`, `SemaphoreResults.dfy`, `BlockedProbe.dfy`,
`SemaphoreLog.dfy`; `semaphore_named.c`, `semaphore_named_blocked.c`). One transition system with a switch for the probe
before `sem_wait`; `g_cnt++` is a read and a write, malloc returns any address that is not live.
The values printed are 1, 2, ... in every run, the run length is exact, every argument cell is freed
once by its thread, the probing variant refines the plain one and conversely, and "blocked" is
explained, bounded, and printed that often by some run of every configuration. Every line is traced
to the step that printed it and to what stood before it, and the counts that finished runs print are
exactly those of all orders in which the threads can come up.

**Chunked transfer** (`Records.dfy`, `Transfer.dfy`, `Server.dfy`, `Client.dfy`, `Session.dfy`,
`SessionStream.dfy`; `app_05*`). Buffers are arrays filled in place and proved equal to a record layout; records are
proved to reassemble to the source under its stamps, for any source and any packet size from 200 to
65535. The client recognises the end exactly when the last chunk's size leaves no byte 67 (the code
of 'C') in the trailer; with packets of 8192 that is: size mod 256 differs from 67. Otherwise both
ends wait for each other for ever. `Session.dfy` runs both ends over a byte stream that delivers
lumps of any size. What the client can receive is exactly every way of cutting that stream up, and
if the data catches up with the reply, the failure the code's comment on its pause speaks of is
proved: the client never sees the end.

**Switch debouncer** (`Debounce.dfy`, `Board.dfy`; `gpio_ledTask_swTask.c`, `app_01timerOut.c`).
`s_bfStart` is the parity of the presses in the run-length encoding of all samples. The LED task
reads the flag and drives the pin in two steps; every value it drives is the parity of the presses
at its read, and it shows every flip exactly when it reads at least once in every four samples,
while the nominal 100 ms against 20 ms is a gap of five.

The transition functions are the models of the protocols; beside each there is a class that changes
the program's variables in place, one method for each kind of step, whose contracts tie it to the
transition function, and a `Run` method that executes the program under arbitrary choices.
Steps are atomic and sequentially consistent; sleeps are no-ops; a printed line is a log entry.
Thread counts, loop counts, source length and sample traces are unbounded.

Where comments and code disagree the model follows the code. `app_05common.h` describes a record as
the data followed directly by A and B and counts the position from 1; the code leaves one stamped
byte between them and sends the size itself. The result block at the head of `mutex_signal.c` is one
of the three logs possible without spurious wake-ups.

## Model

| member | source | states |
|---|---|---|
| Handshake.SoundHolds | posix_thread_4fifo.c:39-102 | In every run, spurious wake-ups or not: the mutexes are held exactly at the program points between lock and unlock, a thread exists exactly once main has created it and has exited once main has joined it, the thread main waits for still has to signal, and counts and result cells fit the program points |
| Handshake.InvariantHolds | posix_thread_4fifo.c:39-59 | Without spurious wake-ups every reachable state also has the thread positions the code relies on: the created threads are parked at the gate, the newest is between its read and its unlock, the rest do not exist; and whoever has read has its own number |
| Handshake.ArgumentPassingIsExact | posix_thread_4fifo.c:41-53 | Every run hands every thread its own number through `&loop` if and only if the condition wait never returns without a signal, or there is no thread |
| Handshake.SpuriousWakeUpBreaksArgument | posix_thread_4fifo.c:47-53 | For any positive number of threads one spurious wake-up gives a run in which thread 0 reads 1 |
| Handshake.NoSignalIsLost | posix_thread_4fifo.c:82-84 | When a thread is about to signal, main is waiting for exactly that thread, and the signal wakes it |
| Handshake.GateHoldsUntilAllHaveRead | posix_thread_4fifo.c:86-96 | Once any thread is past the start gate, every thread has been created and has read its own number |
| Handshake.NeverStuck | posix_thread_4fifo.c:39-59 | In every reachable state before the end, main or some thread can move, whatever spurious wake-ups there were |
| Handshake.EveryRunEnds | posix_thread_4fifo.c:39-69 | Every run, spurious wake-ups or not, can be continued until main is done and is finished exactly at one length plus its number of spurious wake-ups, which is at most the number of threads, and 0 if none are possible |
| Handshake.WakeBoundIsTight | posix_thread_4fifo.c:47-53 | If spurious wake-ups are possible, some finished run has one for each thread, and is longer by that many steps |
| Handshake.ResultsOwned | posix_thread_4fifo.c:57-67 | In every run main reads and frees a result only after its thread has filled it, and at the end every cell has been freed |
| Handshake.LinesAreCounted | posix_thread_4fifo.c:90-96 | In every run, whatever numbers the lines carry, there is one progress line for each full thousand of each thread's count |
| Handshake.LinesFollowCount | posix_thread_4fifo.c:90-96 | The progress lines under a thread's number are 1, 2, ... up to its count in thousands, at every moment of every run without spurious wake-ups |
| Handshake.FinishedRuns | posix_thread_4fifo.c:57-68 | At the end of every run each thread has exited with its full count and no cell, and both mutexes are free; without spurious wake-ups it also has its own number and all its lines under it |
| HandshakeRuns.MovesAreExact | posix_thread_4fifo.c:39-102 | In every run main or a thread can move exactly if, judged by the program counters alone, nobody is between locking and unlocking the mutex it wants, and the thread it joins has exited |
| HandshakeRuns.WaitEndsExactly | posix_thread_4fifo.c:82-84 | In every run, spurious wake-ups or not, the wait of main ends with the next signal, whichever thread sends it, or spuriously, and in no other way |
| HandshakeRuns.OneWakeUpSpoilsAll | posix_thread_4fifo.c:47-53 | For any positive number of threads one single spurious wake-up gives a finished run in which every thread has read the number after its own |
| HandshakeRuns.WhatStays | posix_thread_4fifo.c:71-102 | At every moment of every run the log is a beginning of the later log, and a thread that has read its number keeps it |
| HandshakeRuns.LoopIsMainsOwn | posix_thread_4fifo.c:41-67 | In every run the loop variable is a function of the number of steps main has taken |
| HandshakeRuns.NumberIsLoopThen | posix_thread_4fifo.c:79 | In every run a thread's number is the value that function has for the steps main had taken before the thread's first step |
| HandshakeRuns.NumbersAreExact | posix_thread_4fifo.c:41-79 | A thread can read its own number and no other without spurious wake-ups, and with them exactly the numbers from 0 to the number of threads |
| HandshakeRuns.LinesAreExact | posix_thread_4fifo.c:90-96 | In every run each progress line has been printed once for each thread that has its number and has counted that far, and no other line |
| Handshake.Process.StepMain | posix_thread_4fifo.c:39-67 | One step of main in place is the transition function |
| Handshake.Process.StepWorker | posix_thread_4fifo.c:71-102 | One step of a thread in place is the transition function |
| Handshake.Process.StepSpurious | posix_thread_4fifo.c:52 | The wait returning without a signal in place is the transition function |
| Handshake.Process.Run | posix_thread_4fifo.c:21-102 | Whatever order the actors move in and whenever a wake-up is spurious, the program terminates with everything done, after the fixed number of steps and one for each spurious wake-up |
| ConditionLoop.InvariantHolds | mutex_signal.c:21-49 | Lock owner, condition and both program counters fit together in every reachable state |
| ConditionLoop.MovesAreExact | mutex_signal.c:21-49 | In every run main and the thread can move exactly if, judged by the program counters alone, the other is not inside the lock it wants; the wait can end spuriously whatever the thread is doing |
| ConditionLoop.LoopExit | mutex_signal.c:38-43 | Main leaves the wait loop only with the lock held and the condition set, for any number of spurious wake-ups |
| ConditionLoop.WakeUpNotLost | mutex_signal.c:24-27 | Once the thread has signalled, main is not waiting any more |
| ConditionLoop.EveryRunEnds | mutex_signal.c:31-49 | A run takes at most 19 steps and 5 more for each spurious wake-up, and until main is done main or the thread can move |
| ConditionLoop.LogHolds | mutex_signal.c:21-44 | The log of every reachable state: what has been printed and in which order, tied to the number of spurious wake-ups |
| ConditionLoop.LogsAreExact | mutex_signal.c:6-13 | The finished runs print exactly the complete logs, each of which some run does print; the spurious wake-ups are exactly as many as the log shows, or one more that found the lock taken |
| ConditionLoop.QuietLogs | mutex_signal.c:6-13 | Without spurious wake-ups exactly three logs are left |
| ConditionLoop.Program.StepMain | mutex_signal.c:31-48 | One step of main in place is the transition function |
| ConditionLoop.Program.StepThread | mutex_signal.c:21-29 | One step of the thread in place is the transition function |
| ConditionLoop.Program.Run | mutex_signal.c:21-49 | With at most the given number of spurious wake-ups the program terminates within the bound and prints a complete log |
| SemaphoreCounter.InvariantHolds | semaphore_named.c:11-58 | Semaphore, counter, heap, threads and output fit together in every reachable state of either variant |
| SemaphoreCounter.OneInside | semaphore_named.c:19-22 | In every state that keeps the invariant only one thread is between sem_wait and sem_post |
| SemaphoreResults.CountsInOrder | semaphore_named.c:18-24 | Semaphore value plus threads inside is always 1; the values printed so far are 1, 2, 3, ... and never exceed threads times loops |
| SemaphoreResults.MutualExclusion | semaphore_named.c:19-22 | No two threads are inside together in any run |
| SemaphoreResults.ArgumentsAreOwned | semaphore_named.c:16-26 | A thread's cell is live and holds its own number until it frees it, is shared with no other live thread, and its lines carry that number |
| SemaphoreResults.NeverStuck | semaphore_named.c:18-51 | In every reachable state before the end somebody can move |
| SemaphoreResults.EveryRunEnds | semaphore_named.c:33-57 | Every run is bounded by one length, can be continued, and is finished exactly at that length |
| SemaphoreResults.FinishedIsComplete | semaphore_named.c:44-57 | A finished run has printed 1, ..., threads times loops, each thread `loops` of them; g_cnt has that value, the semaphore is 1 and the heap is empty |
| SemaphoreResults.Process.StepMain | semaphore_named.c:44-52 | One step of main in place is the transition function |
| SemaphoreResults.Process.StepWorker | semaphore_named_blocked.c:11-34 | One step of a thread in place, probing or not, is the transition function |
| SemaphoreResults.Process.Run | semaphore_named.c:11-58 | Under arbitrary scheduling the program terminates after the exact number of steps, complete |
| BlockedProbe.ProbingRefinesPlain | semaphore_named_blocked.c:19-30 | Erasing the probing steps of any run gives a run of the plain program with the same counts printed and the same state |
| BlockedProbe.EveryPlainRunIsAnErasure | semaphore_named.c:18-24 | Conversely every plain run is what erasing leaves of some probing run |
| BlockedProbe.BlockedMeansHeld | semaphore_named_blocked.c:20-23 | Every "blocked" comes from a probe by that thread, its last step, made while another thread held the semaphore |
| BlockedProbe.BlockedIsBounded | semaphore_named_blocked.c:19-30 | "blocked" is printed at most threads times loops minus one times by two or more probing threads, and never otherwise |
| BlockedProbe.BlockedBoundIsTight | semaphore_named_blocked.c:19-30 | Every configuration has a run that prints it as often as that bound allows |
| BlockedProbe.AloneIsNeverBlocked | semaphore_named_blocked.c:19-30 | A single thread never prints "blocked" |
| SemaphoreLog.MovesAreExact | semaphore_named.c:18-51 | In every run main or a thread can move exactly if nobody is inside where it waits, the thread it joins has exited, and malloc returns an address no thread holds |
| SemaphoreLog.LogGrows | semaphore_named_blocked.c:22-26 | At every moment of every run the log is a beginning of the later log |
| SemaphoreLog.LineOrigin | semaphore_named_blocked.c:20-26 | Every line was printed by one step when the log was what stands before it: a count as the next number by a thread inside under its own number, a "blocked" by a thread that saw the semaphore 0 |
| SemaphoreLog.BlockedStands | semaphore_named_blocked.c:20-23 | Every "blocked" stands behind the counts 1, ..., m printed when its thread tested the semaphore, and its thread had read the semaphore at an earlier step with another thread inside |
| SemaphoreLog.CountsAreExact | semaphore_named.c:18-24 | The counts finished runs print are exactly 1, 2, ..., threads times loops under every order of thread numbers in which each comes up `loops` times |
| Records.SlicesAre | app_05tcp_trans1MB_server.c:105-117 | Slice k starts at k packets, is full unless it is the last, and carries EOF exactly if it is the last |
| Records.SliceCount | app_05tcp_trans1MB_server.c:105-117 | The number of slices is the number of packets, and their sizes add up to the source |
| Records.Partition | app_05tcp_trans1MB_server.c:96-117 | Every byte of the source lies in exactly one slice |
| Records.AlignedRecord | app_05tcp_trans1MB_client.c:38-63 | An aligned record with a safe trailer gives the right end flag and size, the slice under its stamps, and a verdict about source offsets 5 to size - 6 alone; the byte behind the data of a last record is zeroed, and all others stay as sent |
| Records.AnyRead | app_05tcp_trans1MB_client.c:31-63 | What any bytes at all, whole or cut, aligned or not, are taken for: end flag, size, verdict and buffer in terms of those bytes |
| Records.MistakenRecord | app_05tcp_trans1MB_client.c:38-44 | A last record with a 'C' in its trailer is taken for a good inner record, and nothing of it is overwritten |
| Records.TruncatedRead | app_05tcp_trans1MB_client.c:31-63 | What any cut of a record is taken for: it reports EOF exactly if the cut falls between the two bytes of a size whose high byte is neither 0 nor a 'C', with the size less its low byte; any other cut passes exactly if it reaches the last checked offset and holds only data (up to packet - 6 bytes never do), or ends after a high byte 'C' |
| Transfer.EndOfRecord | app_05tcp_trans1MB_client.c:46-50 | A record ends the client loop exactly if it is the last and its trailer is safe |
| Transfer.EndDetectionIsExact | app_05tcp_trans1MB_client.c:133-150 | For every non-empty source the loop ends on the last record if its size leaves no 'C' in the trailer, and on no record otherwise |
| Transfer.PacketsRoundUp | app_05tcp_trans1MB_server.c:105-117 | The number of packets is the source length divided by the packet size, rounded up |
| Transfer.RepositoryCondition | app_05common.h:5-8 | With packets of 8192 bytes the trailer is safe if and only if the last size mod 256 is not 67 |
| Transfer.RepositoryTransfer | app_05common.h:5-10 | The 1024000 bytes of the code give 125 records, and the client stops on the last |
| Transfer.RecordLayout | app_05tcp_trans1MB_server.c:55-77 | Byte j of record k from the source alone: 48, 49, 50 at offsets 0 to 2, 69 at packet - 2 to packet, the last size high and low byte behind, the source in between, zeros behind a short rest |
| Transfer.VerdictIsExact | app_05tcp_trans1MB_client.c:57-63 | A record passes exactly if its chunk of the source is all 67 but for five bytes at either end, or if it is a mistaken last one |
| Transfer.Reassembly | app_05tcp_trans1MB_server.c:63-77 | Joining what the client keeps gives the source with 48, 49, 50 at offsets 0 to 2 and 69 at the last two offsets of each chunk, and nothing else changed |
| Transfer.LargeDataPasses | app_05tcp_trans1MB_server.c:39-45 | A source of data codes passes the content check in every record |
| Server.ReplyToAnything | app_05tcp_trans1MB_server.c:23-35 | For any terminated request the reply is a beginning of its text and ",OK" and NUL: the whole text, unless the byte before the last received one is a line feed in it, which then ends it |
| Server.ReplyToLine | app_05tcp_trans1MB_server.c:23-35 | For a request terminated at its last byte the reply is the text without a final line feed, then ",OK" and NUL; it is one C string and fits the buffer |
| Server.Sender.SendReqOK | app_05tcp_trans1MB_server.c:23-35 | What is sent is that reply, whatever the send buffer held before |
| Server.Sender.SetLargeData | app_05tcp_trans1MB_server.c:39-45 | Every byte becomes the data code |
| Server.Sender.SendOnePacket | app_05tcp_trans1MB_server.c:50-77 | What is sent is the record of the slice, whatever the send buffer held before |
| Server.Sender.SendDataBlock | app_05tcp_trans1MB_server.c:89-117 | What is sent is one record for each slice of the source, in order |
| Client.Receiver.RcvDataBlock | app_05tcp_trans1MB_client.c:21-79 | Return value, verdict, size and buffer are those of the record layout, whatever the buffer held before |
| Client.Receiver.ReceiveAll | app_05tcp_trans1MB_client.c:133-150 | The loop stops on the first record that says EOF; cnt, the failures and the bytes kept are those of the records up to there, and the buffer is what the last of them left |
| Client.Receiver.ReceiveSource | app_05tcp_trans1MB_client.c:133-154 | For a whole source cnt is the number of packets; the loop stops exactly if the trailer is safe, holding the stamped source; the failures are the bad chunks of the source; the buffer holds the last record, with a zero behind its data if it was recognised |
| Session.InvariantHolds | app_05tcp_trans1MB_server.c:163-179 | In every interleaving the stream is the reply followed by the first records |
| Session.ReplyToRequest | app_05tcp_trans1MB_client.c:124-126 | The reply to the client's "req" is "req,OK" and NUL, whatever follows the request in the server's buffer |
| Session.AlignmentIsExact | app_05tcp_trans1MB_client.c:124-150 | A run consumes only the reply and whole records throughout if and only if each recv finds the reply alone, respectively a full record |
| Session.EarlyDataMisaligns | app_05tcp_trans1MB_server.c:173-178 | In every run whose recv of the reply finds more than the reply, it swallows the start of the first record as well, 193 bytes of it once 200 have arrived, and the client is misaligned |
| Session.EarlyDataCanArrive | app_05tcp_trans1MB_server.c:173-178 | Every transfer of at least one record has such a run |
| Session.RecordsArriveInOrder | app_05tcp_trans1MB_client.c:133-150 | In every on-time run the k-th record received is the k-th sent |
| Session.BytesConsumed | app_05tcp_trans1MB_client.c:128-150 | In every on-time run the bytes consumed are the reply and cnt records |
| Session.RunsAreBounded | app_05tcp_trans1MB_server.c:163-179 | Every run, on time or not, has a bounded number of steps |
| Session.TimelyRunsComeToRest | app_05tcp_trans1MB_server.c:163-179 | Every timely run can be continued, in time, until it comes to rest |
| Session.OutcomeIsExact | app_05tcp_trans1MB_client.c:133-156 | A timely run that has come to rest has delivered all records; both ends have closed if the source is not empty and the trailer is safe, and are deadlocked otherwise: nobody can take any further step, in time or not |
| SessionStream.ReceptionsAreExact | app_05tcp_trans1MB_client.c:128-150 | What the client can receive behind the reply is exactly every cut of the byte stream into a first recv of up to 200 bytes and pieces of up to a record's length, until one says EOF: nothing lost, doubled or reordered, and no cut impossible |
| SessionStream.StuckIsExact | app_05tcp_trans1MB_server.c:163-179 | In every run, on time or not, nobody can move exactly if both ends have closed and all is delivered, or the client waits for a record and the server for a request |
| SessionStream.EarlyDataNeverEnds | app_05tcp_trans1MB_server.c:173-178 | For a source of 'C', once the recv of the reply has filled its buffer and every later one finds a record's length or all that is left, the client never sees an end, and is deadlocked with the server when all is consumed |
| SessionStream.EarlyDataHangs | app_05tcp_trans1MB_server.c:173-178 | Every non-empty source of 'C' has such a run that ends in the deadlock |
| Debounce.EncodingIsUnique | gpio_ledTask_swTask.c:147-168 | A trace has only one run-length encoding |
| Debounce.DebouncerIsRunParity | gpio_ledTask_swTask.c:132-168 | s_bfStart is the parity of the (low run, high run) pairs of length at least 2 in the run-length encoding of the samples, whatever hist held at first |
| Debounce.FlipSpacing | gpio_ledTask_swTask.c:163-167 | Two flips are at least four samples apart, with two consecutive low samples between them |
| Debounce.FlipsAreRare | gpio_ledTask_swTask.c:163-167 | n samples flip the flag at most n/4 times |
| Debounce.FlipBoundIsTight | gpio_ledTask_swTask.c:163-167 | For every k there is a trace of 4k samples with k flips |
| Debounce.NoPressNoFlip | gpio_ledTask_swTask.c:163-165 | A trace without two consecutive high samples flips nothing |
| Board.LedNeverOvercounts | gpio_ledTask_swTask.c:118-126 | In every interleaving the LED changes at most as often as the flag flips, changes on their way included |
| Board.FrequentReadsLoseNothing | gpio_ledTask_swTask.c:118-126 | With a read in every four samples, LED changes and changes on their way add up to all flips |
| Board.FiveSampleGapHidesAPress | gpio_ledTask_swTask.c:125-148 | Five samples between two reads can hold two flips the LED never shows |
| Board.FourSampleGapIsExact | gpio_ledTask_swTask.c:118-168 | Every flip is shown in every interleaving if and only if the gap between reads is at most four samples |
| Board.ClockPrintsAfterOddPresses | app_01timerOut.c:206-213 | mainTask prints on a pass exactly if the number of presses so far is odd |
| Board.LedDrivesWhatItRead | gpio_ledTask_swTask.c:118-126 | In every interleaving ledTask drives one value in every second step, and the k-th is the parity of the presses in the samples before its k-th read, whether or not the LED already has it |
| Board.ClockLinesAreExact | app_01timerOut.c:206-213 | In every interleaving mainTask has printed once for each of its passes that comes after an odd number of presses |
| Board.Tasks.SwTaskPass | app_01timerOut.c:154-168 | One pass of the polling loop in place is the transition function |
| Board.Tasks.LedTaskStep | app_01timerOut.c:119-126 | Testing the flag and driving the pin in place are the two LED steps |
| Board.Tasks.MainTaskPass | app_01timerOut.c:206-213 | One pass of the printing loop in place is the transition function |
| Board.Tasks.Run | app_01timerOut.c:106-214 | Under any interleaving the flag ends as the parity of the presses, the LED changed no more often than there were presses, and the values driven and the lines printed are those the events call for |

## Left out

- Socket set-up, socket options, GPIO export and the sysfs files, serial lines, network interfaces, reboot and the other single-call samples: no logic of their own.
- Scheduling priorities, real time and the lengths of sleeps: timing needs are stated as conditions on runs instead.
- Failure returns of thread creation, malloc, semaphore and socket calls, and the client's return without a value when recv fails.
- The text of printed lines beyond who prints what value, the priority and time lines of main in posix_thread_4fifo.c, and the date format of mainTask.
- Integer widths: g_cnt, the loop counters and cnt are unbounded; the code's constants stay far below the limit.
- Session.AlignmentIsExact: covers misaligned runs as far as the client's buffer goes; a misaligned read whose zero byte lies outside that buffer has no defined result in the code, and counts as one without EOF.
- Client.Receiver.RcvDataBlock: requires that the position it zeroes lies in the buffer, which every record of the server and every cut of one meets; outside it the code writes past its array, with no defined result.
- Client.Receiver.ReceiveAll: requires the same of each delivery, for the same reason.
- Server.Sender.SendReqOK: requires at least two received bytes and a terminator in the buffer, as the code does; the test for "req" in the request is left out, since the client always sends it.
- Session.OutcomeIsExact: covers one request on one connection, as the client makes it.
- mutex_variable.c, posix_thread_5passingOneArgument.c, app_03timeOfCalc.c, time_nanosecond.c and the app_04, mqueue and msg samples: easier versions of the above, or numeric timing.
