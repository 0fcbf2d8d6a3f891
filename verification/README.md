# php-flame: a model of its stateful cores

php-flame is a coroutine runtime for PHP on libuv. These Dafny modules model the parts of it that keep
state over many callbacks or translate one representation into another, and prove what each of them is
for.

| file | what it models |
|---|---|
| `WorkQueue.dfy` | the two-thread work queue as a state machine: every interleaving of both threads' sections, coalescing wake-ups, the shutdown sentinel |
| `ThreadWorker.dfy` | the thread worker's own loops, with the other thread in between any two sections; every section is a step of the machine |
| `CursorFetch.dfy` | `cursor::to_array`, one request going back and forth through that queue beside any other traffic |
| `Generators.dfy` | what a nest of generators means: direct recursive evaluation, asynchronous completions, callbacks |
| `Coroutine.dfy` | the trampoline: explicit generator stack, `status_`, callback queue, deferred resume |
| `Bytes.dfy` | bytes, concatenation, the truncation of an `unsigned short` length and the pieces that it can carry |
| `FastCgi.dfy` | the FastCGI response printer and a record reader written from the FastCGI Specification, sections 3.3, 5.5 and 8 |
| `HttpChunked.dfy` | the HTTP body printer and a decoder written from section 4.1 of RFC 7230 |
| `StreamReader.dfy` | the buffered stream reader with its four kinds of read |
| `SqlSyntax.dfy` | SQL conditions: tokens, a parser with AND binding tighter than OR, three-valued truth |
| `SqlWhere.dfy` | the WHERE printer of the MySQL client |
| `Bson.dfy` | PHP arrays to BSON and back |
| `HttpHeaders.dfy` | request headers assembled from fragments |
| `Connection.dfy` | the reference-counted life of a server connection |
| `SkipSpace.dfy` | `skip_trailing_space` eight bytes at a time, and the byte-order functions below it |
| `Options.dfy`, `PhpKeys.dfy` | a value that may be missing; the keys of a PHP array and their text |

`dafny verify dfyconfig.toml` checks all of it.

## How the parts hang together

*Queue.* `WorkQueue` says what may happen; `Inv` is kept by every step (`InvStep`) and therefore holds in
every reachable state. From it follow order and exactly-once completion, both assertions of the drain
loops, the order of shutdown, and that no wake-up is lost; a measure bounds what is left to do, so that a
queue that has come to rest has finished. `ThreadWorker` is the code: the loops of `worker_cb`,
`master_cb` and `close_work`, proved to go only from one reachable state to another, to empty their queue
in order whatever the other thread and the callbacks do meanwhile, and to return from the join.
`CursorFetch` puts the fetch loop on top of the machine and proves that it ends, and that it amounts to the
sequential loop `FetchAll`.

*Coroutine.* `Generators.Eval` is the meaning a user has in mind. Each method of `Coroutine` keeps
`Meaning`, which is what has happened followed by the direct evaluation of what is still to come; `Drive`,
the event loop, ends with the outcome, the left-over completions and the resume log of direct evaluation.

*Reader.* `StreamReaders.Goes` says what a step does to the books: bytes lost, reads forgotten, answers gone
astray. Every part of a callback is booked, steps add up over runs, and the three theorems about arbitrary
runs are sums; that reads in turn keep everything is the case where all sums are zero.

*Printers.* Each printer is a class that appends to a buffer, tied to a function that gives the bytes or
tokens, and a reader for the other direction is written from the format's own specification.

## Where the code and what it promises differ

For each of these it is proved exactly when the promise holds, for every input or for every run. Where the
condition is exact for a part only, the entry says so.

- `close_work` with null data is not recorded. A run that has stopped has completed every submission exactly
  if neither `queue_work` nor `close_work` is called after a `close_work` with null data
  (`WorkQueue.CloseArgumentExact`).
- A throwable that a yielded generator *returns* is thrown in the outer one, where `yield from` would hand
  it over as a value. The two evaluations of a program agree exactly if no generator that is yielded on the
  way returns a throwable (`Generators.PlainYieldFromExact`).
- The length of a body piece is an `unsigned short`: of n bytes only the first n mod 65536 are sent, and a
  piece that is empty, or becomes so, ends the body early (`FastCgi.ResponseExact`,
  `HttpChunked.ChunkedExact`, `HttpChunked.PlainExact`); a header block of 65536 bytes or more gets a
  wrong length (`FastCgi.HeadRecordExact`).
- Reads on a stream reader that overlap. Over every run:
  as many reads are forgotten as were started over another one (`StreamReaders.OverlapsExact`), and such a
  read is never answered (`StreamReaders.OverwrittenNeverAnswered`);
  the bytes that are lost are those that a step overwrites in `rv_` before their timer fires, and all bytes
  are conserved exactly if no step does (`StreamReaders.BytesExact`);
  an answer goes to another read than the one that took it exactly if the timer fires for a read that had
  to wait (`StreamReaders.AnswersExact`; `StreamReaders.Misdelivered` is such a run).
- A read that is started while `close` resumes the coroutine of the one before it is answered exactly if the
  reader is closed a second time; the code then goes on to use a timer that is gone
  (`StreamReaders.ReadInsideCloseExact`).
- `docs/flame_db_mysql.md:66` documents `$gte` and `$lte`, but the tests for `$gt` and `$lt` come first
  and take them, so the bound itself is excluded (`SqlWhere.OperationExact`). For a whole condition one
  direction is proved (`SqlWhere.WhereKeepsMeaning`); the other is false there, as a shadowed comparison
  may sit beside a condition that decides the outcome anyway (`SqlWhere.ShadowedHarmless`).
- Doubles, other objects, lists that are not keyed 0..n-1 in order, and arrays with integer keys but no
  key 0 do not come back from BSON (`Bson.RoundTripExact`).
- The other way round, a document that is empty comes back from PHP as an array, and 32-bit integers as 64-bit
  ones (`Bson.BackExact`).
- An empty array under a comparison prints a closing parenthesis without an opening one
  (`SqlWhere.ValBalance`).
- `close` on a reader without a read under way leaves it open (`StreamReaders.ClosedAnswers`).
- A header without a value leaves its name in front of the next header's name. `HttpHeaders.GluedExact` is
  exact for the list of headers that are taken; the map may come out right all the same
  (`HttpHeaders.GluedHarmless`).
- After EOF or an error, any run that releases the last response closes the socket exactly if the
  connection is not kept alive; a kept one cannot be closed later (`Connections.LastReleaseExact`).

## Model

| member | source | states |
|---|---|---|
| `WorkQueue.InvStep` | src/flame/thread_worker.cpp:24-117 | every section of either thread keeps: submissions are where they should be, in order; the sentinel is in one place and last; the control positions that can occur together; no queue is left without a wake-up |
| `WorkQueue.FifoStep` | src/flame/thread_worker.cpp:41-98 | no step loses, repeats or reorders a request on its way from submission to completion |
| `WorkQueue.ExitPlaceStep` | src/flame/thread_worker.cpp:24-117 | `exit_req` stays last in whichever queue holds it, and reaches each next place after everything else |
| `WorkQueue.ShapeStep` | src/flame/thread_worker.cpp:24-117 | while one thread is in a given section, the other is in one that fits it |
| `WorkQueue.InvRun` | src/flame/thread_worker.cpp:24-117 | the invariant holds after every run |
| `WorkQueue.InOrderExactlyOnce` | src/flame/thread_worker.cpp:41-99 | submissions == completed ++ master's hand ++ `queue_master` ++ worker's hand ++ `queue_worker`; what was completed is a prefix of what was worked on, and that of what was submitted |
| `WorkQueue.SubmittedEndsWithExit` | src/flame/thread_worker.cpp:24-33 | once `close_work` was called, the sentinel is the last submission of all |
| `WorkQueue.ShutdownOrder` | src/flame/thread_worker.cpp:24-117 | both drain-loop assertions hold; the exit `work_cb` and the exit `after_work_cb` follow every normal one |
| `WorkQueue.SomeEnabled` | src/flame/thread_worker.cpp:30-98 | as long as anything is outstanding, one of the threads can go on: no wake-up is lost |
| `WorkQueue.MeasureStep` | src/flame/thread_worker.cpp:24-117 | every step of the threads themselves reduces a measure over both queues, flags and positions |
| `WorkQueue.SystemRunBound` | src/flame/thread_worker.cpp:24-117 | without new calls, every run ends within that measure |
| `WorkQueue.StoppedMeansDone` | src/flame/thread_worker.cpp:30-117 | wherever a run stops, all submissions are completed; after `close_work` the thread has ended and the join has returned |
| `WorkQueue.CanFinish` | src/flame/thread_worker.cpp:30-117 | such a run exists from every reachable state |
| `WorkQueue.NullCloseLosesWork` | src/flame/thread_worker.cpp:24-37 | a run with `close_work(nullptr, ...)` after which an accepted request is never run |
| `WorkQueue.AsIfRecorded` | src/flame/thread_worker.cpp:24-37 | as long as nothing is called afterwards, a null close leads to the state of a recorded one, but for the record |
| `WorkQueue.CallAfterNullClose` | src/flame/thread_worker.cpp:24-99 | whatever is called after a null close ends in `queue_worker` with no thread to take it, for good |
| `WorkQueue.CloseArgumentExact` | src/flame/thread_worker.cpp:24-99 | any run that has stopped, with any arguments to `close_work`, has completed all submissions exactly if nothing was called after a close with null data |
| `ThreadWorkers.ThreadWorker.constructor` | src/flame/thread_worker.cpp:7-20 | starts in the machine's initial state |
| `ThreadWorkers.ThreadWorker.Commit` | src/flame/thread_worker.cpp:24-117 | fields changed as one event says are again a reachable state |
| `ThreadWorkers.ThreadWorker.WorkerTakes` | src/flame/thread_worker.cpp:44-56 | takes the front of `queue_worker`; the sentinel leaves an empty queue behind and closes the handle |
| `ThreadWorkers.ThreadWorker.WorkerServes` | src/flame/thread_worker.cpp:56-63 | one request: `work_cb`, push, send, whatever the master does in between |
| `ThreadWorkers.ThreadWorker.WorkerCb` | src/flame/thread_worker.cpp:41-66 | drains until empty and terminates, in reachable states throughout; whatever the master does meanwhile, the queue is empty at the end and the requests queued at the start run first and in order, and undisturbed exactly those |
| `ThreadWorkers.ThreadWorker.WorkerCloseCb` | src/flame/thread_worker.cpp:100-111 | the exit `work_cb` runs, `exit_req` goes to the master, the thread ends |
| `ThreadWorkers.ThreadWorker.WorkerSteps` | src/flame/thread_worker.cpp:41-111 | any worker section reduces the measure |
| `ThreadWorkers.ThreadWorker.QueueWork` | src/flame/thread_worker.cpp:87-99 | refused exactly once `exit_req.data` is set; otherwise the request is submitted, and the worker may run between push and send |
| `ThreadWorkers.ThreadWorker.CloseWork` | src/flame/thread_worker.cpp:24-37 | with the worker running between any two sections the join returns, and by then the worker has run every request and the exit `work_cb`; a second call does nothing |
| `ThreadWorkers.ThreadWorker.MasterTakes` | src/flame/thread_worker.cpp:70-82 | takes the front of `queue_master`; the sentinel leaves an empty queue behind |
| `ThreadWorkers.ThreadWorker.MakesCall` | src/flame/thread_worker.cpp:24-37 | one call made by a callback, of `queue_work` or `close_work`: what it submits, nothing once closed |
| `ThreadWorkers.ThreadWorker.MasterServes` | src/flame/thread_worker.cpp:82-84 | one `after_work_cb` that makes any calls of `queue_work` and `close_work`: what they submit, and that what has come back stays in order |
| `ThreadWorkers.ThreadWorker.MasterTurn` | src/flame/thread_worker.cpp:70-84 | one round of the loop: the front request is completed and what its callback calls is submitted, the sentinel does neither |
| `ThreadWorkers.AcceptedAppend` | src/flame/thread_worker.cpp:87-99 | what two lists of calls submit, one after the other: the second counts only if the first has not closed |
| `ThreadWorkers.ThreadWorker.MasterCb` | src/flame/thread_worker.cpp:67-86 | drains until empty and terminates, with callbacks that may make any calls; the queue is empty at the end, and the `after_work_cb`s queued at the start run first and in order, and undisturbed exactly those. What is submitted meanwhile is exactly what the k-th callbacks of the requests completed call, in order, up to the first close; `exit_req.data` is set exactly if it was before or one of them closes |
| `ThreadWorkers.ThreadWorker.ExitAfterWorkCb` | src/flame/thread_worker.cpp:112-117 | `master_close_cb` runs the exit `after_work_cb` |
| `CursorFetch.FetchInvStep` | src/flame/db/mongodb/cursor.cpp:40-64 | every step, of the fetch or of other traffic, keeps: the request is in one place, and `idx`, `doc` and the rows so far agree with it |
| `CursorFetch.PlacedMove` | src/flame/db/mongodb/cursor.cpp:45-54 | the request is in at most one queue or hand, once |
| `CursorFetch.ResumedOnceWithAllRows` | src/flame/db/mongodb/cursor.cpp:40-56 | the coroutine is resumed at most once, with exactly the n rows in order, after callbacks with index -2, 0..n-1, -1 |
| `CursorFetch.DocumentStillCurrent` | src/flame/db/mongodb/cursor.cpp:49-52 | when the master reads a document, the worker has not advanced the cursor past it |
| `CursorFetch.FetchMeasureStep` | src/flame/db/mongodb/cursor.cpp:40-64 | remaining documents are a termination measure of the exchange, resubmissions included |
| `CursorFetch.FetchRunBound` | src/flame/db/mongodb/cursor.cpp:40-64 | without new calls the exchange and all traffic beside it end within that measure |
| `CursorFetch.FetchCompletes` | src/flame/db/mongodb/cursor.cpp:40-64 | a fetch that has come to rest has resumed the coroutine with all rows, or `close_work` came in between |
| `CursorFetch.FetchCanFinish` | src/flame/db/mongodb/cursor.cpp:40-64 | a run to that rest exists from every state of a fetch |
| `CursorFetch.Request.ToArrayWk` | src/flame/db/mongodb/cursor_implement.cpp:29-39 | the worker half, as a step of the exchange |
| `CursorFetch.Request.ToArrayCb` | src/flame/db/mongodb/cursor.cpp:40-56 | the master half, and whether it queues the request again |
| `CursorFetch.FetchAll` | src/flame/db/mongodb/cursor.cpp:40-56 | the sequential loop gives the rows that the exchange resumes with |
| `Generators.OneCallbackPerCompletion` | src/flame/coroutine.cpp:134-159 | callbacks that each start an operation run in registration order, one per completion; the generator gets the completion after them; a failure or throwable discards the rest |
| `Generators.DeliveryExact` | src/flame/coroutine.cpp:134-159 | for any callbacks, mixing those that complete at once with those that start an operation: a value passes unchanged from one to the next, each operation uses up one completion, and the generator gets the last value, or the first exception with the callbacks behind it discarded, or waits |
| `Generators.DeliveryDecided` | src/flame/coroutine.cpp:134-159 | every list of callbacks and completions is such a case |
| `Generators.EvalConsumes` | src/flame/coroutine.cpp:105-159 | completions are used up in the order in which generators await them, and an evaluation stops only where they do not suffice |
| `Generators.EvalHonest` | src/flame/coroutine.cpp:73-133 | in every evaluation a yielded plain value comes straight back, a yielded generator hands over what its own evaluation ended with, and the outcome is what the last point of the outermost generator returns or raises |
| `Generators.PlainAgrees` | src/flame/coroutine.cpp:73-86 | if no generator returns a throwable, the library's evaluation is plain `yield from` |
| `Generators.ThrowableReturnThrows` | src/flame/coroutine.cpp:73-86 | a program on which they differ, for every throwable |
| `Generators.HandsDecides` | src/flame/coroutine.cpp:73-86 | both evaluations are equal, or their resume logs come apart where a yielded generator returned a throwable |
| `Generators.PlainYieldFromExact` | src/flame/coroutine.cpp:73-86 | for every program and all completions they agree exactly if no generator that is yielded on the way returns a throwable |
| `Coroutines.Coroutine.OnePhase` | src/flame/coroutine.cpp:64-133 | at the event loop the coroutine is in one of three phases: suspended, resume timer armed, closing; `status_` is -1 exactly in the last |
| `Coroutines.Coroutine.Reach` | src/flame/coroutine.cpp:14-32 | an async call counts in `status_` once and appends its callbacks |
| `Coroutines.Coroutine.Close` | src/flame/coroutine.cpp:87-104 | the assertion never fires; with one entry the coroutine closes, once, otherwise the resume timer is armed |
| `Coroutines.Coroutine.Run` | src/flame/coroutine.cpp:105-133 | keeps the meaning, terminates, and ends in one of the three phases |
| `Coroutines.Coroutine.Next` | src/flame/coroutine.cpp:134-177 | delivers a completion as direct evaluation does; ignored once closing; `coroutine::current` is restored |
| `Coroutines.Coroutine.CallFront` | src/flame/coroutine.cpp:155-157 | the front callback is taken off and called; if it completes at once, its value goes on to the next one |
| `Coroutines.Coroutine.Fail` | src/flame/coroutine.cpp:178-189 | discards all callbacks, throws into the generator; `coroutine::current` is restored |
| `Coroutines.Coroutine.ResumeCb` | src/flame/coroutine.cpp:73-86 | hands the outcome of an ended generator to the one below: one turn of the remaining meaning |
| `Coroutines.Coroutine.StartCb` | src/flame/coroutine.cpp:33-52 | invokes the callable and runs: the meaning is the direct evaluation of what it gave |
| `Coroutines.Coroutine.CloseCb` | src/flame/coroutine.cpp:64-72 | the loop is stopped exactly if the direct evaluation ends with an exception |
| `Coroutines.Coroutine.Drive` | src/flame/coroutine.cpp:64-199 | over all completions: same outcome, same left-over completions, and the same values and exceptions sent to the same generators in the same order as direct recursive evaluation; a callable that returns a value or throws ends with exactly that; `coroutine::current` is as before |
| `FastCgi.Swap` | src/flame/net/fastcgi/server_response.cpp:57 | the two bytes of a length change places |
| `FastCgi.Padding` | src/flame/net/fastcgi/server_response.cpp:16 | 0 to 7, and fills up to a multiple of 8 |
| `FastCgi.ReadStdoutRecord` | src/flame/net/fastcgi/server_response.cpp:66-86 | the specification's reader gets a printed record back, and leaves what follows it |
| `FastCgi.ReadBody` | src/flame/net/fastcgi/server_response.cpp:66-101 | what the reader gets of any list of pieces |
| `FastCgi.ResponseExact` | src/flame/net/fastcgi/server_response.cpp:23-101 | the reader gets header ++ body followed by one END_REQUEST exactly if every piece has 1 to 65535 bytes |
| `FastCgi.ResponseAligned` | src/flame/net/fastcgi/server_response.cpp:16-101 | every response occupies a multiple of 8 bytes |
| `FastCgi.RecordAligned` | src/flame/net/fastcgi/server_response.cpp:16-101 | so does every record |
| `FastCgi.HeadRecordExact` | src/flame/net/fastcgi/server_response.cpp:50-64 | the header record holds the header block exactly if the block is below 65536 bytes |
| `FastCgi.HeadRecordLength` | src/flame/net/fastcgi/server_response.cpp:50-64 | the length field counts the whole buffer before it, modulo 65536, whatever the buffer held |
| `Bytes.TruncateMeans` | src/flame/net/fastcgi/server_response.cpp:66 | a length that fits is kept, and any other is what is left after 65536 is taken away |
| `Bytes.CarriesWhole` | src/flame/net/fastcgi/server_response.cpp:66 | a piece goes out whole exactly if it has at most 65535 bytes |
| `FastCgi.ServerResponse.BufferHeader` | src/flame/net/fastcgi/server_response.cpp:23-65 | reserves eight bytes, appends the block, writes the header into the reserved bytes, pads; the length counts what was in the buffer before |
| `FastCgi.ServerResponse.BufferBody` | src/flame/net/fastcgi/server_response.cpp:66-86 | appends one STDOUT record |
| `FastCgi.ServerResponse.BufferEnding` | src/flame/net/fastcgi/server_response.cpp:87-101 | appends the END_REQUEST record |
| `FastCgi.ServerResponse.WriteHeader` | src/flame/net/http/server_response_base.cpp:58-69 | the header block goes out once and throws afterwards; a closing connection refuses it and loses it |
| `FastCgi.ServerResponse.Write` | src/flame/net/http/server_response_base.cpp:70-82 | one more piece, after the header block; throws after the end, refused on a closing connection |
| `FastCgi.ServerResponse.WriteBuffer` | src/flame/net/http/server_response_base.cpp:102-110 | the buffer is moved out; the connection takes all of it, or nothing once it is closing |
| `FastCgi.ServerResponse.End` | src/flame/net/http/server_response_base.cpp:83-101 | the wire is a first part of the response and, unless the connection began to close, all of it; from that a client reads the header block and all pieces exactly if every piece has 1 to 65535 bytes |
| `HttpChunked.HexRoundTrip` | src/flame/net/http/server_response.cpp:54 | reading a hexadecimal size undoes printing it |
| `HttpChunked.DecodeChunk` | src/flame/net/http/server_response.cpp:51-60 | the decoder takes one printed chunk and goes on with what follows; an empty one ends the body |
| `HttpChunked.ServerResponse.BufferBody` | src/flame/net/http/server_response.cpp:51-64 | appends one chunk, or the plain bytes |
| `HttpChunked.ServerResponse.WriteAll` | src/flame/net/http/server_response_base.cpp:70-101 | any number of writes and the end put out the pieces in order, then the last chunk |
| `HttpChunked.ChunkedExact` | src/flame/net/http/server_response.cpp:51-64 | decoding consumes every byte and returns the concatenation exactly if every piece has 1 to 65535 bytes |
| `HttpChunked.PlainExact` | src/flame/net/http/server_response.cpp:61-63 | without chunks, the bytes are the body exactly if no piece is above 65535 bytes |
| `StreamReaders.TakeMeans` | src/flame/io/stream_reader.cpp:123-171 | a read loses and invents nothing; a size read takes exactly `d_size` bytes, a delimiter read the shortest prefix that ends in the delimiter |
| `StreamReaders.TakeExact` | src/flame/io/stream_reader.cpp:123-171 | read() waits exactly on an empty buffer and otherwise takes all of it; a size read waits exactly on fewer bytes, a delimiter read exactly while nothing matches, read_all until the end |
| `StreamReaders.TakeMonotone` | src/flame/io/stream_reader.cpp:123-171 | later bytes do not change what such a read takes |
| `StreamReaders.ChunkingIndependent` | src/flame/io/stream_reader.cpp:102-171 | however a stream is cut, a sequence of size and delimiter reads returns the same strings |
| `StreamReaders.GoesDelivered` | src/flame/io/stream_reader.cpp:88-96 | `return_cb` loses no byte; its answer goes astray exactly if the read under way has not taken it |
| `StreamReaders.GoesArrived` | src/flame/io/stream_reader.cpp:115-121 | an arrival loses exactly what it overwrites in `rv_`; no read is forgotten, no answer goes astray |
| `StreamReaders.GoesClosed` | src/flame/io/stream_reader.cpp:18-32 | the same for closing, with a read that is started inside |
| `StreamReaders.GoesEnded` | src/flame/io/stream_reader.cpp:104-110 | the same for EOF, with reads that are started inside |
| `StreamReaders.GoesStep` | src/flame/io/stream_reader.cpp:18-122 | for every step of any run: the bytes lost, the reads forgotten and the answers gone astray; whatever is answered is what some read asked for |
| `StreamReaders.StartExact` | src/flame/io/stream_reader.cpp:33-87 | starting a read keeps the books exactly if no other read is under way |
| `StreamReaders.PhaseStep` | src/flame/io/stream_reader.cpp:18-122 | while reads do not overlap, no step overwrites an answer, forgets a read or misdelivers |
| `StreamReaders.RunKeeps` | src/flame/io/stream_reader.cpp:18-171 | over every interleaving in which reads do not overlap: delivered ++ `rv_` ++ `buf_` == received, and the i-th answer goes to the coroutine of the i-th read and is what that read asked for; for read() and read_all() everything that had arrived by then and was not delivered before |
| `StreamReaders.BytesExact` | src/flame/io/stream_reader.cpp:18-122 | over any run the bytes lost are those overwritten in `rv_`; all are conserved exactly if no step overwrites any |
| `StreamReaders.OverlapsExact` | src/flame/io/stream_reader.cpp:33-122 | over any run as many reads are forgotten as were started over another one; all are answered once and in order, or under way, exactly if none was |
| `StreamReaders.AnswersExact` | src/flame/io/stream_reader.cpp:33-122 | over any run every answer goes to the read that took it exactly if the timer never fires for a read that had to wait; it is then what that read asked for |
| `StreamReaders.Misdelivered` | src/flame/io/stream_reader.cpp:33-96 | a run in which the second read gets the bytes that the first one took |
| `StreamReaders.ClosedAnswers` | src/flame/io/stream_reader.cpp:18-32 | closing answers null without an error and the error otherwise; without a read under way it does nothing at all |
| `StreamReaders.EndedAnswers` | src/flame/io/stream_reader.cpp:104-110 | at the end read_all gets the whole buffer and leaves the reader open unless its coroutine reads on; any other read gets null and the reader closes |
| `StreamReaders.ClosedReads` | src/flame/io/stream_reader.cpp:33-96 | after closing, reads are refused but for read_all, which uses the timer that is gone; an answer for nobody uses a coroutine that is not there |
| `StreamReaders.NotUnderWay` | src/flame/io/stream_reader.cpp:18-122 | a coroutine that is not the one under way gets no answer until it reads again |
| `StreamReaders.OverwrittenNeverAnswered` | src/flame/io/stream_reader.cpp:33-122 | a read that was under way when another one was started is never answered, in any later run |
| `StreamReaders.ReadInsideCloseExact` | src/flame/io/stream_reader.cpp:18-32 | a read started while `close` resumes the coroutine before it is answered, without data, exactly if the reader is closed again, and nothing can happen after that |
| `StreamReaders.StreamReader.ReadFromBuf` | src/flame/io/stream_reader.cpp:123-171 | moves to `rv_` what the read takes, and back what is too much; read() leaves nothing behind |
| `StreamReaders.StreamReader.Find` | src/flame/io/stream_reader.cpp:147-149 | the first match of the delimiter |
| `StreamReaders.StreamReader.ReadSome` | src/flame/io/stream_reader.cpp:33-74 | three of the reads: timer if the buffer suffices, otherwise reading; they throw after closing |
| `StreamReaders.StreamReader.ReadAll` | src/flame/io/stream_reader.cpp:75-87 | reading, or after closing the timer that is gone |
| `StreamReaders.StreamReader.ReturnCb` | src/flame/io/stream_reader.cpp:88-96 | `co_` is cleared before the coroutine goes on, which may start its next read at once |
| `StreamReaders.StreamReader.TimerFires` | src/flame/io/stream_reader.cpp:40-43 | the one-shot timer calls `return_cb` in the next turn of the loop |
| `StreamReaders.StreamReader.Close` | src/flame/io/stream_reader.cpp:18-32 | answers the read under way, if any, with null or the error, and cuts off a read that is started by that; the second time it answers such a read and then uses the timer that is gone |
| `StreamReaders.StreamReader.EofCb` | src/flame/io/stream_reader.cpp:104-110 | read_all gets what there is, then the reader closes; both may resume a coroutine that reads again |
| `StreamReaders.StreamReader.DataCb` | src/flame/io/stream_reader.cpp:115-121 | an arrival answers the latest read if that suffices |
| `StreamReaders.StreamReader.ReadCb` | src/flame/io/stream_reader.cpp:102-122 | EOF, errors, no data and data |
| `StreamReaders.StreamReader.Serve` | src/flame/io/stream_reader.cpp:47-171 | the object itself, under any chunking, returns what it would if the whole stream were there at once |
| `SqlWhere.ReadList` | src/flame/db/mysql/client.cpp:31-39 | a printed list of scalars parses back to them |
| `SqlWhere.ReadItem` | src/flame/db/mysql/mysql.cpp:48-118 | every condition prints without an error and parses, as one primary, to its expression |
| `SqlWhere.ReadGroup` | src/flame/db/mysql/mysql.cpp:72-89 | a joined list of conditions parses to their conjunction or disjunction |
| `SqlWhere.OperationExact` | src/flame/db/mysql/mysql.cpp:90-117 | one operator keeps its documented meaning on every row exactly if it is not `$gte` or `$lte`, or compares with NULL |
| `SqlWhere.EvalItem` | src/flame/db/mysql/mysql.cpp:48-118 | the expression has the three-valued truth of the condition |
| `SqlWhere.EvalGroup` | src/flame/db/mysql/mysql.cpp:72-89 | so have the groups |
| `SqlWhere.WhereKeepsMeaning` | src/flame/db/mysql/mysql.cpp:119-143 | the printed clause parses completely, to an expression with the same truth on every row |
| `SqlWhere.ShadowedHarmless` | src/flame/db/mysql/mysql.cpp:48-118 | a condition with `$gte` whose printed form has the same truth on every row all the same |
| `SqlWhere.WhereUnderstood` | src/flame/db/mysql/mysql.cpp:119-143 | for every argument: a string is read back as that text, null as no restriction, an array as its meaning; all else, lists and unknown operators are refused |
| `SqlWhere.ItemSays` | src/flame/db/mysql/mysql.cpp:48-118 | every condition that is printed, documented or not, prints all its fields and values, once and in order |
| `SqlWhere.ItemKnown` | src/flame/db/mysql/mysql.cpp:48-118 | a condition throws exactly if some operator in it is unknown |
| `SqlWhere.ValBalance` | src/flame/db/mysql/client.cpp:31-39 | a printed value closes one parenthesis too many for each empty array in it, and balances otherwise |
| `SqlWhere.KeysMean` | src/flame/db/mysql/mysql.cpp:72-81 | which keys are operators and groups, by their first letters |
| `SqlWhere.FieldComparison` | docs/flame_db_mysql.md:66-73 | each documented comparison compares the field with the value as its name says |
| `SqlWhere.FieldOthers` | src/flame/db/mysql/mysql.cpp:102-111 | `$in` asks for a member of the list, `$ne` with null for any value |
| `SqlWhere.FieldValue` | src/flame/db/mysql/mysql.cpp:50-70 | a field with a value, null or a list |
| `SqlWhere.GroupsMean` | src/flame/db/mysql/mysql.cpp:72-89 | a conjunction is false exactly if a member is, true exactly if all are; a disjunction dually |
| `SqlWhere.GroupExample` | docs/flame_db_mysql.md:58-61 | the two groups of the documentation, over any values |
| `SqlSyntax.TruthTables` | docs/flame_db_mysql.md:58-61 | AND and OR of the server in three-valued logic, as duals |
| `SqlSyntax.AnyOfMeans` | docs/flame_db_mysql.md:62-65 | IN is true exactly if one member equals the value, false exactly if none can |
| `SqlSyntax.AndAfterOr` | src/flame/db/mysql/mysql.cpp:72-89 | the parser binds AND tighter than OR on its right |
| `SqlSyntax.AndBeforeOr` | src/flame/db/mysql/mysql.cpp:72-89 | and on its left |
| `SqlWhere.ValToBuffer` | src/flame/db/mysql/client.cpp:13-48 | the loop prints a value or a nested list |
| `SqlWhere.ConditionItem` | src/flame/db/mysql/mysql.cpp:48-118 | prints one condition, or throws for an unknown operator |
| `SqlWhere.FieldItem` | src/flame/db/mysql/mysql.cpp:50-71 | prints a field with a list, operators, NULL or a value |
| `SqlWhere.GroupItem` | src/flame/db/mysql/mysql.cpp:72-89 | prints a group in parentheses |
| `SqlWhere.OperatorItem` | src/flame/db/mysql/mysql.cpp:90-117 | prints one operator, by the first prefix test that matches |
| `SqlWhere.ConditionItems` | src/flame/db/mysql/mysql.cpp:60-89 | the loops over the entries, with the separator before all but the first |
| `SqlWhere.Where` | src/flame/db/mysql/mysql.cpp:119-143 | for every argument: accepted exactly if it is a string, null, or an array without key 0 and unknown operators; what is appended is read back as the string itself, as no restriction, or as the truth of the array on every row, and names all its fields and values in order |
| `Bson.RoundTripExact` | src/flame/db/mongodb/mongodb.cpp:103-241 | a value comes back unchanged exactly if it is null, bool, integer, string, object_id, date_time, an empty array, a list keyed 0..n-1 in order, or a map without key 0 whose keys come back from their text, of such values |
| `Bson.ListExact` | src/flame/db/mongodb/mongodb.cpp:207-216 | a list comes back exactly if it is keyed in order and its values survive |
| `Bson.MapExact` | src/flame/db/mongodb/mongodb.cpp:103-176 | a whole document comes back exactly if its keys come back and its values survive |
| `Bson.EncodeSame` | src/flame/db/mongodb/mongodb.cpp:103-143 | every value but an array is stored as the same number, text or time, a fraction cut off, or not at all |
| `Bson.DecodeSame` | src/flame/db/mongodb/mongodb.cpp:177-237 | every BSON value but an array or document, 32-bit integers and doubles included, is read as the same number, text or time |
| `Bson.ArrayStored` | src/flame/db/mongodb/mongodb.cpp:145-164 | an array is stored as a BSON array exactly if it is empty or has a key 0 |
| `Bson.EntriesStored` | src/flame/db/mongodb/mongodb.cpp:103-169 | the i-th field stored is the i-th entry that has a BSON type, under the text of its key |
| `Bson.BackExact` | src/flame/db/mongodb/mongodb.cpp:103-241 | a BSON value read and written back is itself, with 32-bit integers widened, exactly if it holds no doubles or unsupported types, its arrays are keyed in order, and its documents are not empty and have keys that PHP keeps apart, gives back and does not take for 0 |
| `Bson.FieldsLength` | src/flame/db/mongodb/mongodb.cpp:170-176 | reading a document keeps as many entries as it has fields exactly if no two keys meet |
| `Bson.PutLookup` | src/flame/db/mongodb/mongodb.cpp:170-176 | assigning an element changes what is found under its key and nothing else |
| `PhpKeys.DecimalDenotes` | src/flame/db/mongodb/mongodb.cpp:107 | an integer key is written in decimal, most significant digit first, without a superfluous zero |
| `PhpKeys.TextMeans` | src/flame/db/mongodb/mongodb.cpp:107 | every key is written in full |
| `Bson.FieldsAppend` | src/flame/db/mongodb/mongodb.cpp:170-176 | reading a document loses entries as soon as two keys become one |
| `Bson.FillDocument` | src/flame/db/mongodb/mongodb.cpp:103-169 | the loop appends the fields in order; kinds without a case are skipped |
| `Bson.FillArray` | src/flame/db/mongodb/mongodb.cpp:170-176 | the loop assigns the fields in order |
| `Bson.From` | src/flame/db/mongodb/mongodb.cpp:177-241 | one BSON value; lists are renumbered |
| `HttpHeaders.ServerConnection.HeaderAdd` | src/flame/net/http/server_connection.cpp:87-93 | normalises the name in place and stores the value |
| `HttpHeaders.ServerConnection.FieldCb` | src/flame/net/http/server_connection.cpp:76-81 | a name fragment first stores the header before it, if that has a value |
| `HttpHeaders.ServerConnection.ValueCb` | src/flame/net/http/server_connection.cpp:82-86 | a value fragment is appended |
| `HttpHeaders.ServerConnection.CompleteCb` | src/flame/net/http/server_connection.cpp:94-97 | the last header is stored |
| `HttpHeaders.ServerConnection.Parse` | src/flame/net/http/server_connection.cpp:76-97 | for every split into fragments the map is the in-order fold of normalised names, the last duplicate winning |
| `HttpHeaders.LinesGlued` | src/flame/net/http/server_connection.cpp:76-97 | the map depends on whole names and values only |
| `HttpHeaders.GluedExact` | src/flame/net/http/server_connection.cpp:76-97 | the lines are taken one by one exactly if none has an empty value |
| `HttpHeaders.GluedHarmless` | src/flame/net/http/server_connection.cpp:76-97 | lines with an empty value that give the same map as the in-order fold |
| `HttpHeaders.NormalMeans` | src/flame/net/http/server_connection.cpp:87-93 | a normalised name has no underscore and no upper case, other characters stay, and two names become one exactly if they differ in case and in underscore against dash only |
| `HttpHeaders.LastWins` | src/flame/net/http/server_connection.cpp:87-93 | what the map holds under a name is the value of the last header with it |
| `Connections.InvStep` | src/flame/net/http/server_connection_base.cpp:18-80 | every step keeps the order of libuv calls and what `is_closing` means |
| `Connections.RunKeeps` | src/flame/net/http/server_connection_base.cpp:18-95 | over every interleaving `uv_close` is issued at most once, last, and with no response left; no write follows `is_closing` |
| `Connections.LastReleaseExact` | src/flame/net/http/server_connection.cpp:36-40 | every run of a closing connection that releases its last response closes the socket exactly if the connection is not kept alive; a kept one stays open for good |
| `Connections.RunDecided` | src/flame/net/http/server_connection_base.cpp:28-80 | over any run: the connection is closing exactly if the peer has gone or the last response of one that is not kept was released, `uv_close` was issued exactly if no response was left then, and exactly the writes before that were issued |
| `Connections.RefersTo` | src/flame/net/http/server_connection_base.cpp:18-34 | `refer_` is the number of responses created less those released, and the last word of the parser on keeping the connection holds |
| `Connections.ServerConnection.CloseEx` | src/flame/net/http/server_connection_base.cpp:28-34 | stops reading, and closes if no response refers to the connection |
| `Connections.ServerConnection.Close` | src/flame/net/http/server_connection.cpp:36-40 | a response lets go |
| `Connections.ServerConnection.ReadCb` | src/flame/net/http/server_connection_base.cpp:67-80 | data, EOF or a parse error |
| `Connections.ServerConnection.Write` | src/flame/net/http/server_connection_base.cpp:41-54 | refused exactly when closing |
| `SkipSpace.Uint4korr` | deps/mysql-connector-c/include/byte_order_generic.h:46-54 | the 32-bit sum does not wrap |
| `SkipSpace.Uint8korr` | deps/mysql-connector-c/include/byte_order_generic.h:56-69 | the halves do not overlap |
| `SkipSpace.Int4Store` | deps/mysql-connector-c/include/byte_order_generic.h:83-89 | undone by `uint4korr`; bytes outside stay |
| `SkipSpace.Int8Store` | deps/mysql-connector-c/include/byte_order_generic.h:91-97 | undone by `uint8korr`; bytes outside stay |
| `SkipSpace.Uint8korrInjective` | deps/mysql-connector-c/include/byte_order_generic.h:56-69 | different bytes give different words |
| `SkipSpace.WordOfSpaces` | deps/mysql-connector-c/include/m_string.h:322 | the word equals 0x2020202020202020 exactly if all eight bytes are spaces |
| `SkipSpace.SkipTrailingSpace` | deps/mysql-connector-c/include/m_string.h:317-329 | for every byte string the same end as the byte-wise scan |

## Left out

- libuv, the PHP engine, libmongoc, libmysqlclient and the http, fastcgi, kv and multipart parsers are not part of this model; they appear as steps or parameters: `uv_async_send` sets a pending flag, a generator is a script, BSON is a tree.
- ThreadWorkers.ThreadWorker.CloseWork: takes data that is not null, as every caller in the repository passes; null data is a step of the machine, and `WorkQueue.CloseArgumentExact` decides every run with it.
- Thread worker: loops that carry further handles (the heartbeat timer of the rabbitmq client), null `work_cb` pointers, `uv_async_send` on a handle that is already closed after null data, and what libuv does with the exception that `queue_work` throws inside a callback.
- Cursor: several outstanding requests on one cursor, `cursor::next`, and destruction; the contents of a row (that is `Bson.FillArray`).
- Coroutines: several coroutines sharing the single pending exception, the recovery from a missing `yield`, `ref_`, and the completion of a coroutine that has been deleted. A script is assumed to end after finitely many yields, and every async marker to be yielded.
- Coroutines.Coroutine.Close: does not model the error report for `status_` above zero, which only a missing `yield` leads to.
- Coroutines.Coroutine.Run: does not model the exception for a missing `yield`.
- Coroutines.Coroutine.ResumeCb: does not model the branch for an entry that is no generator, because such an entry is only ever at the bottom, where nothing is resumed.
- FastCgi.ServerResponse.constructor: takes a header block of 1 to 65535 bytes, because its length field cannot hold more (`FastCgi.HeadRecordExact`); the text of the block (status line, headers, cookies) is a parameter.
- FastCGI record type numbers are those of section 8 of the FastCGI Specification, since fastcgi_parser.h is not part of this model; the pointer `head` into a buffer that may move is modelled as an offset.
- HTTP header text and the choice between chunked coding and `Content-Length`; both kinds of body are modelled.
- Stream reader: what happens after a null `co_` or `tm_` was used; such a run ends there.
- SQL is modelled as tokens: quoting, escaping, spacing and the five bytes that are copied of the four-letter AND are not. Doubles and objects print as strings and are covered by `Str`.
- SqlWhere.ConditionItem: gives a group whose value is not an array the outcome of an unknown operator, where the code casts without looking.
- SqlWhere.WhereKeepsMeaning: does not cover several operators under one field and empty groups, whose output is not SQL; which fields and values these print is stated by `SqlWhere.ItemSays`.
- `sql_orderby`, `sql_limit`, and the other statements of the MySQL client.
- Bson.RoundTripExact: takes what PHP's array makes of a string key as a parameter; keys with NUL bytes and doubles outside int64 are not modelled.
- HTTP headers: cookies, bodies and multipart parts, which rest on parsers that are not part of this model.
- Connections: responses that are destroyed inside a read callback.
- Integers other than the lengths named above are unbounded; `size_t` and counter overflow are not modelled.
- Processes, workers, redis, kafka, rabbitmq, loggers, sockets and tickers.
