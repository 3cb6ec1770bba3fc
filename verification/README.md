# Verified model of the network-programming servers

A Dafny model of the servers in this repository: the blocking queue and thread pool of the C web
server, its HTTP parser and printers, the chat server's registry and broadcast, and the request
parser and chunked writer of the Node.js server.

`dafny verify dfyconfig.toml` checks everything.

| file | what it models |
|---|---|
| `RingBuffer.dfy` | the circular buffer of `src/queue.c` as a value, whole runs of it, its cost, and the code as written |
| `SafeQueue.dfy` | the queue object that is updated in place |
| `QueueRace.dfy` | interleavings around the fullness test made outside the mutex |
| `ThreadPool.dfy` | `src/pool.c` with the wait/signal discipline of the queue, as a step system |
| `PoolEvents.dfy`, `PoolRuns.dfy` | the pool stated over the events of a run alone, and runs built step by step |
| `WrittenPool.dfy` | the same pool over the queue as it is written |
| `Options.dfy`, `Text.dfy`, `Numerals.dfy`, `CStrings.dfy` | missing values, split/join and letter case, numerals, and strtok on NUL-terminated buffers |
| `Headers.dfy`, `Request.dfy`, `Response.dfy` | the C HTTP code |
| `StrtokRace.dfy` | interleaved calls of strtok with its one saved pointer |
| `MessageReader.dfy` | a reader of responses after sections 4, 5, 6.3 and 7.1 of RFC 9112, with a switch for each choice the standard leaves it, used to state the framing theorems |
| `Chunked.dfy`, `Context.dfy` | the writing and reading halves of `context.ts` |
| `ClientArray.dfy`, `ChatServer.dfy`, `ChatProtocol.dfy` | swap-remove and search by descriptor, the chat registry as objects, and its interleavings |

## Where the code departs from its intent

Each departure is kept as it is in the code, and a lemma says exactly when the code still does what
it is meant to do.

- The copy loop of the resize stops where `i` meets `rear`, so a full queue copies nothing
  (`src/queue.c:22`). `RingBuffer.WrittenResizeExact`: contents are kept if and only if the queue
  is empty or not full, so every growth loses everything. Storage fresh from malloc is modelled as
  cells that hold no item.
- The shrink asks for the mutex that its own caller holds (`src/queue.c:17`, `src/queue.c:62`).
  `RingBuffer.ShrinkDeadlocks` shows the consequence, and `RingBuffer.WrittenAgreesIff` says for
  which sequential runs the code as written is a FIFO: exactly those in which no dequeue leaves 32
  pending items and no enqueue finds 128. `WrittenPool.ShutdownIff`: the pool over that queue shuts
  down if and only if neither happens while some worker has not yet taken its sentinel.
- The fullness test is made outside the mutex (`src/queue.c:37`). `QueueRace.UnlockedTestSafeIff`:
  it is sound in every interleaving if and only if there is at most one producer. The accept loop
  alone is one; `thread_pool_destroy` enqueues sentinels (`src/pool.c:62-64`), so a destroyer that
  runs beside it is a second, and the FIFO that `ThreadPool.dfy` assumes is then not guaranteed.
- A NULL pushed by a client is taken for a sentinel once `running` is cleared (`src/pool.c:14-16`).
  `PoolRuns.DrainIff`: whatever set of entries clients may push, every shutdown drains if and only
  if NULL is not in it.
- `headers_delete` keeps `size` and compares the name as given (`src/headers.c:41-55`), so slots are
  left over whose strings are freed already or shared with a kept field. `Headers.WrittenDeleteIff`:
  no later use (lookup, print, set, another delete, destroy) can tell it from the intended delete if
  and only if the name is not stored at all. `Headers.WrittenDeleteLookupsIff` is the weaker condition
  for callers that only look names up, and `Headers.SecondDeleteFaults` a pair of deletes of which the
  second reads what the first left shared and itself freed.
- `request_parse` takes a request without headers apart wrongly, and dereferences NULL on a request
  line of one word or a header line with nothing behind its first token (`src/request.c:10-27`).
  `Request.RoundTripIff`, `Request.ParseExact` and `Request.HeaderlessExact` give the conditions.
- `request_parse` uses `strtok`, whose saved pointer is shared by all workers (`src/request.c:10-24`).
  `StrtokRace.UndisturbedAgrees` says for which schedules that pointer does the work of one per
  thread; `StrtokRace.PathTaken` is a schedule in which a worker takes another request's path.
- `response_to_string` prints its Content-Length beside whatever the handler set, and a body for any
  status (`src/response.c:12-25`): `Response.FramingIff` says when a reader finds the boundary.
- `add_chat_client` reads its result after unlocking (`src/chat-server.c:44`):
  `ChatServer.LateResultIff`. The loop also registers what `accept` returns without looking at it
  (`src/chat-server.c:114-117`), so a failure is a client with descriptor -1.
  `ChatProtocol.FreedInUseIff`: a handler can be left with a freed entry if and only if a second
  failure was registered beside a first, or another client was read than the one just registered.
- The default name overruns its buffer from client number 10^(max_name_length - 9) on
  (`src/chat-server.c:37-38`): `ChatServer.DefaultNameFits`.
- `write_headers` sends no space behind the status (`phase2/src/server/context.ts:34`), which section 4
  of RFC 9112 requires even without a reason: a reader that insists on it refuses every response.
- `write_body` of empty data writes the terminator, and a 304 is followed by one although it cannot
  have a body (`phase2/src/server/dynamic/chat-status.ts:23-24`); a handler's own Transfer-Encoding or
  Content-Length would change the framing as well: `Chunked.ReplyRoundTripIff` has all conditions.
- `parse` splits a header line at every ": " and keeps the first two parts
  (`phase2/src/server/context.ts:10`): `Context.ValueKeptIff`.
- `parse` collects headers in a plain object, so a header named `constructor` or `__proto__`, like a
  missing `Host` or a URL that does not resolve, makes it throw: `Context.ParseRoundTrip`.

## Conventions

- Pointers into a buffer are indices. Undefined behaviour (a NULL dereference, a read past the
  buffer, a freed string) is an explicit outcome.
- A byte on the wire is a `char`. Letter case is ASCII, as in the C locale; two texts have the same
  letters (`Text.SameLetters`) if at each place the characters are equal or stand at one place of the
  two alphabets. A `char*` argument is the
  text before its first NUL; `CStrings.CutNul` makes the cut where `strlen` or `%s` does.
- An allocation has an identity. Reading or freeing it after it was freed is an explicit outcome.
- The reader of responses is one for requests other than HEAD and CONNECT; only CRLF ends a line.
- `CStrings.dfy` and `Request.dfy` give every call of `strtok` the saved pointer of its own thread.
- `malloc` contents, the clock's date, what a client sends, what `accept` returns (failure included)
  and whether `new URL` accepts its arguments are parameters or free choices of a step.
- Threads are sequentially consistent steps. A task handed to the pool eventually returns.
- What a run was given is read off its events alone (`PoolEvents.Pushed` and `Entered`,
  `QueueRace.Puts`, `ChatProtocol.Broadcasts` and `StoryOf`), and the results are stated over that.
- The pool and the chat interleavings are step systems because what matters there is every
  interleaving; the queue, the headers, the request buffer, the socket and the chat registry are
  objects updated in place.

## Model

| member | source | states |
|---|---|---|
| RingBuffer.FifoRefinement | src/queue.c:4-67 | for every sequence of calls on a new queue (resize copying all pending items under the lock), every answer is the plain sequence's, the contents are its items, the capacity is a power of two, and it is 128, 2, or below four times the pending count; a dequeue that would wait leaves the run as if it had not been made, so runs continue only after calls that do not block |
| RingBuffer.AmortisedCost | src/queue.c:16-67 | any n operations on a new queue copy at most 2n + 64 items |
| RingBuffer.StepPaysForCopies | src/queue.c:36-67 | one operation's copies plus the new potential exceed the old potential by at most 2 |
| RingBuffer.CopiesExact | src/queue.c:16-67 | a call copies all that is pending at the time exactly if it changes the capacity, and otherwise nothing |
| RingBuffer.WriteAppends | src/queue.c:42-44 | the write of a non-full ring appends one item behind the pending ones, through wrap-around |
| RingBuffer.TakeRemovesOldest | src/queue.c:57-59 | taking from a non-empty ring removes exactly the oldest item |
| RingBuffer.CopyStepsCount | src/queue.c:22-25 | the copy loop runs (rear - front) mod capacity times, which is the size unless the ring is full, and then zero |
| RingBuffer.WrittenResizeExact | src/queue.c:16-34 | the written resize keeps the contents if and only if the ring is empty or not full; on a full one every cell is unwritten |
| RingBuffer.WrittenAgreesIff | src/queue.c:16-67 | a sequential run of the code as written equals the FIFO if and only if no dequeue leaves 32 items and no enqueue finds 128; in particular whenever at most 32 are ever pending |
| RingBuffer.ShrinkDeadlocks | src/queue.c:50-67 | a dequeue that leaves a positive quarter of the capacity never returns, and every later operation blocks with nothing changed |
| RingBuffer.LostMutexStopsQueue | src/queue.c:17 | once a thread waits for the mutex it holds, no queue operation steps again |
| RingBuffer.WrittenStepValid | src/queue.c:16-67 | one call as written, exactly, by pending cells, capacity, mutex and answer: growth doubles and loses what is pending, a dequeue that leaves a positive quarter keeps the mutex, an empty queue makes the caller wait, a lost mutex stops all |
| RingBuffer.StepCapacity | src/queue.c:36-67 | the intended capacity is doubled by an enqueue on a full ring, halved by a dequeue that leaves a positive quarter, and otherwise kept |
| SafeQueue.SafeQueue.constructor | src/queue.c:4-14 | a new queue is the empty ring of capacity 128 |
| SafeQueue.SafeQueue.CopyUntilRear | src/queue.c:22-25 | the loop as written copies that many items in FIFO order and touches nothing else |
| SafeQueue.SafeQueue.Resize | src/queue.c:16-34 | the written resize on the heap, or no effect when the mutex cannot be had |
| SafeQueue.SafeQueue.Enqueue | src/queue.c:36-48 | the whole new state and outcome of the call as written |
| SafeQueue.SafeQueue.Dequeue | src/queue.c:50-67 | the whole new state and outcome of the call as written, waiting and self-deadlock included |
| SafeQueue.SafeQueue.ResizeLocked | src/queue.c:19-31 | the intended resize keeps the contents and copies `size` items |
| SafeQueue.SafeQueue.EnqueueIntended | src/queue.c:36-48 | appends exactly one item, through growth, at the cost counted by the amortised bound |
| SafeQueue.SafeQueue.DequeueIntended | src/queue.c:50-67 | on an empty queue the caller waits and nothing changes; otherwise returns the oldest item and leaves the rest, through shrinkage, at the counted cost |
| QueueRace.LoneProducerSafe | src/queue.c:36-48 | with one producer, any consumers and shrinks between test and lock, in every run the items enqueued are those dequeued followed by those pending |
| QueueRace.LoneProducerFifo | src/queue.c:36-48 | in every run with one producer, the items it came with, in the order of its writes, are those taken followed by those pending |
| QueueRace.EnqueueAlone | src/queue.c:36-48 | any producer's enqueue without interference is possible and is the whole call of RingBuffer, growth included |
| QueueRace.ConsumeAlways | src/queue.c:50-67 | while anything is pending a consumer can take the oldest item |
| QueueRace.TwoProducersOverwrite | src/queue.c:36-48 | a run of two producers in which the oldest pending item is overwritten |
| QueueRace.UnlockedTestSafeIff | src/queue.c:36-48 | every reachable state is safe if and only if there is at most one producer |
| PoolEvents.EveryRun | src/pool.c:8-76 | in every run of any pool: while a worker sleeps the queue is no longer than the number of woken workers; the entries of the enqueue events, with a NULL for each sentinel, are in order those dequeued and those queued; the entries of the push events plus the sentinels are in flight plus queued plus held plus finished |
| ThreadPool.WakeUpKept | src/queue.c:46-55 | no step, spurious wake-ups and overtaking consumers included, loses a wake-up |
| ThreadPool.ShutdownNeverStuck | src/pool.c:60-74 | in every reachable state after `running` is cleared, until all are joined, some worker or the destroyer can step |
| ThreadPool.ShutdownStep | src/pool.c:8-24 | after `running` is cleared every step but a spurious wake-up lowers a natural-number measure, and that one raises it by at most one |
| ThreadPool.ShutdownCompletes | src/pool.c:60-76 | from any such state every continuation has at most measure plus two per spurious wake-up steps, and one that no worker and not the destroyer can continue has joined every worker |
| ThreadPool.SentinelsMatchWorkers | src/pool.c:60-64 | sentinels to come plus sentinels queued equal the workers that have not taken one |
| PoolEvents.Drain | src/pool.c:54-76 | when clients push no NULL and all workers have exited: dequeued is exactly what the events enqueued up to the last sentinel, each task among it ran exactly once, each worker took exactly one sentinel, and the queue holds exactly what was enqueued later |
| PoolRuns.DrainIff | src/pool.c:8-76 | for every number of workers and every set of entries that clients may push: that holds in every run in which all workers have exited if and only if NULL is not in the set |
| PoolRuns.ClientNullLeavesSentinel | src/pool.c:14-16 | for every number of workers, a run with one client NULL in which all exit and a sentinel stays in the queue |
| PoolRuns.TasksCanRun | src/pool.c:8-76 | for every number of workers and every list of tasks there is a run that pushes exactly these, runs them in that order and shuts down |
| PoolRuns.PushCompletes | src/pool.c:54-58 | a push that has passed the `running` test can always be finished, also after the pool is stopped |
| PoolRuns.WakesUnasked | src/queue.c:53-55 | a sleeping worker may wake unasked at any time and then looks at the queue again |
| WrittenPool.ShutdownIff | src/queue.c:16-67 | over the queue as written, for every run without a client NULL that cleared `running` and cannot be continued by a worker or the destroyer: all workers are joined and nobody was handed an unwritten cell, if and only if no dequeue left 32 entries and no enqueue found 128 while some worker had not taken its sentinel |
| WrittenPool.SoundRun | src/pool.c:8-76 | until then, and after the last sentinel is taken, the run is one of the pool over the intended FIFO |
| CStrings.StrtokInPlace | src/request.c:10-14 | strtok on the buffer is the specified token, cut and saved pointer, for a caller whose saved pointer nobody else uses |
| CStrings.TokenInside | src/request.c:10-14 | a token at the pointer is returned and cut right behind it, wherever it is in the buffer |
| CStrings.StrtokInside | src/request.c:10-14 | on any text before a NUL strtok takes the first token and cuts behind it, or keeps a text without one |
| StrtokRace.UndisturbedAgrees | src/request.c:10-24 | for every schedule of calls by any number of threads in which each strtok(NULL) directly follows a call of its own thread, the one saved pointer gives the tokens and buffers of one pointer per thread |
| StrtokRace.DisturbedAgreesIff | src/request.c:13-14 | a strtok(NULL) behind another thread's call gives the right answer if and only if both strings are used up |
| StrtokRace.PathTaken | src/request.c:10-14 | for any two legal requests: when both workers have cut off their method, the path that the first reads is the other's |
| Request.RequestParse | src/request.c:3-40 | the in-place parser computes Parse of the buffer it was given |
| Request.ParseHeadersInPlace | src/request.c:21-33 | the header loop on the buffer; its offset grows with each line and is checked against the buffer |
| Request.ParseLineInPlace | src/request.c:21-27 | one line: none, a fault, or a header with the new offset and the cut buffer |
| Request.LineExact | src/request.c:21-27 | for every non-empty line anywhere in the buffer: a fault if and only if nothing stands behind the delimiter that ends its first token; else its field, the next offset, and nothing behind the line touched |
| Request.HeadersExact | src/request.c:21-33 | for every non-empty list of non-empty lines behind any prefix: the loop faults if and only if some line is bare, and otherwise takes each line's field in order and stops at the body |
| Request.ParseExact | src/request.c:3-40 | for every request line and non-empty list of header lines, legal or not: the parser faults if and only if the request line has no second word or some header line is bare, and otherwise gives the first two words, every line's field and the exact body |
| Request.HeaderlessExact | src/request.c:21-36 | for every request without header lines: a fault if the request line has no second word or the first body line is bare; a body of line breaks comes back behind the blank line's CRLF; otherwise the first body line becomes the first header, and right behind the blank line it is all that is left |
| Request.ParseCutOff | src/request.c:21-36 | for every request that ends behind its last header line: the same fault condition and result, with an empty body |
| Request.LastLineUnended | src/request.c:21-36 | a last header line that is not ended makes the offset count a break that is not there: a fault if the line is bare or fewer than two cells follow its terminator, else its field and an empty body |
| Request.RoundTripIff | src/request.c:3-40 | for all legal method, path, version, headers and body: parsing the printed request gives them back, each name with the same letters and no capital, each value exactly, if and only if there is at least one header |
| Request.StopsInside | src/request.c:21-36 | whatever the input, a loop that does not fault stops inside the buffer |
| Headers.Headers.Set | src/headers.c:10-22 | appends the field, in strings of its own; its name has the given letters and no capital; a NULL name or value is stored as the empty one |
| Headers.Headers.Get | src/headers.c:24-39 | the first field with that name in any letter case; comparing with a freed name is reported |
| Headers.GetExact | src/headers.c:24-39 | on every sound list: the value of the first field whose name has the same letters, and a miss if there is none |
| Text.LettersIff | src/headers.c:16-18 | two texts have one lower-case form if and only if they have the same letters |
| Text.LowerExact | src/headers.c:16-18 | the lower-case form has the same letters and no capital |
| Headers.Headers.Delete | src/headers.c:41-55 | as written: the slots, which may share strings, the freed strings and the returned count after the loop, or that it compares with a freed name |
| Headers.DeleteExact | src/headers.c:41-55 | on any list, shared and freed strings included: the loop faults if and only if some slot's name is freed when it gets there, and otherwise leaves the kept fields in order followed by the old last slots, frees exactly the strings of the name and counts them |
| Headers.Headers.DeleteMeant | src/headers.c:41-55 | the intended delete on the same list: name in lower case, shortened list, the count |
| Headers.Headers.Print | src/headers.c:57-67 | the printing loop: a text, an overrun of the 1 MiB buffer, or a read of freed strings |
| Headers.PrintExact | src/headers.c:57-67 | on any list: the fields before the first freed one, in order as "name: value" lines; that one is a fault; 1048576 bytes before that are an overrun |
| Headers.Headers.Destroy | src/headers.c:69-76 | frees the strings of every field, or reports that some are freed twice |
| Headers.DestroyIff | src/headers.c:69-76 | nothing is freed twice if and only if no string was freed before and none is shared |
| Headers.GetIsFirstSurviving | src/headers.c:10-55 | after any sets and intended deletes, a lookup returns the first value set under a name of the same letters since such a name was last deleted |
| Headers.DeleteThenGet | src/headers.c:24-55 | after the intended delete every name of the same letters misses and every other lookup is unchanged |
| Headers.WrittenDeleteIff | src/headers.c:41-55 | for every sound list: no sequence of lookups, prints, sets, deletes and a destroy distinguishes the delete as written from the intended one if and only if no stored name has the same letters |
| Headers.WrittenDeleteLookupsIff | src/headers.c:24-55 | for lookups only: they agree if and only if no deleted field is left in the tail, or, for a name with capitals, the name is not stored |
| Headers.LeftoverFreedTwice | src/headers.c:41-76 | after any delete that removes something, destroying the list frees a string twice |
| Headers.SecondDeleteFaults | src/headers.c:41-55 | set a, set b, delete a leaves two slots sharing b's strings, and deleting b then reads a freed name |
| Headers.HarmfulTail | src/headers.c:24-55 | with a deleted field left in the tail, looking its name up reads freed memory, where after the intended delete it misses |
| Response.ResponseToString | src/response.c:12-25 | the printed response with the body up to its first NUL, unless it takes 1048576 bytes or more; a freed header is never printed |
| Response.FramingIff | src/response.c:12-25 | for every policy and whatever bytes follow, a section 6.3 reader finds the status, the header fields, the body and exactly those bytes if and only if the status has three digits and either it may not have a body and the body is empty, or no header is a Transfer-Encoding and every Content-Length among them agrees with the printed one (if the reader takes no repeated one: there is none) |
| Response.FramingExact | src/response.c:12-25 | the same for given following bytes, including the body that ends with the connection |
| Numerals.PrintRead | src/response.c:18 | reading a printed decimal or hexadecimal numeral gives the number back |
| Numerals.PrintPositional | src/response.c:18 | the printed numeral has at each place the digit of that place, in "0123456789abcdef", and no leading zero |
| Chunked.HttpContext.WriteHeaders | phase2/src/server/context.ts:33-44 | the exact head bytes appended to the socket |
| Chunked.HeadText | phase2/src/server/context.ts:33-44 | the head byte for byte |
| Chunked.HttpContext.WriteBody | phase2/src/server/context.ts:46-51 | appends one chunk |
| Chunked.HttpContext.EndBody | phase2/src/server/context.ts:53-56 | appends the last chunk |
| Chunked.HttpContext.Redirect | phase2/src/server/context.ts:58-61 | appends a complete 302 response with no chunks |
| Chunked.DecodeExact | phase2/src/server/context.ts:46-56 | for all chunks and following bytes, a section 7.1 decoder returns the chunks before the first empty one and leaves precisely what was written after it |
| Chunked.BodyRoundTripIff | phase2/src/server/context.ts:46-56 | it returns the whole body and precisely the following bytes if and only if no chunk is empty |
| Chunked.EmptyChunkEnds | phase2/src/server/context.ts:46-51 | an empty chunk is byte for byte the terminator |
| Chunked.ReplyRoundTripIff | phase2/src/server/context.ts:33-56 | for every policy and given following bytes, the reader gets the head and the body and stops exactly at them if and only if it takes a status line without a reason, the status has three digits and may have a body, no chunk is empty, and the handler's headers add no transfer coding nor, unless the reader ignores it, a Content-Length; a reader that insists on the space behind the status refuses every response; behind a bodyless status all chunk bytes are left over |
| Chunked.StreamRoundTripIff | phase2/src/server/context.ts:33-56 | any number of responses back to back separate into exactly what was sent if and only if each of them does alone: a lost boundary is never found again |
| Chunked.ChunksAreNoMessage | phase2/src/server/context.ts:46-56 | chunk bytes are never taken for a response |
| Context.ParseRoundTrip | phase2/src/server/context.ts:3-28 | for separable headers and any body: parse throws if and only if Host is missing, a name is `constructor` or `__proto__` in any letter case, or `new URL` refuses the path on that host (a parameter); else a method with the same letters and no small one, path, host, exact body, and under each key without capitals the values of the headers with its letters, in order |
| Context.ParseExact | phase2/src/server/context.ts:3-28 | the same for every request at all, with or without an empty line, a second word or separators |
| Context.EntryExact | phase2/src/server/context.ts:9-12 | for every line: the key has the letters of the text before the first ": " and no capital, the value is the text from there to the second one, and undefined without a first |
| Context.InheritedExact | phase2/src/server/context.ts:14-21 | among the names of Object.prototype only `constructor` and `__proto__` can be keys |
| Text.UpperExact | phase2/src/server/context.ts:27 | the upper-case form has the same letters and no small one |
| Context.ValueKeptIff | phase2/src/server/context.ts:9-12 | a header line becomes its lower-case key and the value up to a second ": ", so the value survives if and only if it contains no ": " |
| Context.BodyIsVerbatim | phase2/src/server/context.ts:4-23 | for every request: the body is everything behind the first two line breaks in a row; without them it is empty if the request ends with a break, and otherwise everything behind the first line |
| Context.GroupExact | phase2/src/server/context.ts:14-21 | the reduce throws exactly on an inherited key and otherwise collects each key's values in order |
| ChatServer.ChatServer.Add | src/chat-server.c:30-45 | appends a client with the next default name and grows the counter; the result, read from the registry after the lock is released, is that client when nobody else acts in between; an overrun of the name's buffer is reported |
| ChatServer.DefaultNameFits | src/chat-server.c:37-38 | the default name of client n fits its buffer if and only if max_name_length is at least 12 and n is below 10^(max_name_length - 9) |
| ChatServer.DefaultNameExact | src/chat-server.c:37-38 | "Client #" and at least three digits that read as the number, without further zeros in front |
| ChatServer.ChatServer.Remove | src/chat-server.c:47-62 | unlinks the first client with that descriptor; with distinct descriptors that is exactly the leaving one and the others stay as a multiset |
| ChatServer.ChatServer.Rename | src/chat-server.c:166-183 | the new name that CutNewlineExact gives, or a refusal when it is too long; names keep fitting their buffers |
| ChatServer.CutNewlineExact | src/chat-server.c:167-168 | for every text: what comes before its first NUL, up to the end of its first token if it has one; so a line without a break comes back whole |
| ChatServer.CutOneLine | src/chat-server.c:167-168 | a name typed on one line becomes exactly that line, whatever follows |
| ChatServer.ChatServer.Handle | src/chat-server.c:165-203 | a message that starts with "/rename " renames, any other is broadcast |
| ChatServer.ChatServer.Broadcast | src/chat-server.c:185-199 | the text, with the message up to its first NUL, fits the buffer allocated for it and is sent once to every client in registry order |
| ChatServer.LateResultIff | src/chat-server.c:30-45 | read after unlocking, the result is the added client for every sequence of removals in between if and only if at most one other client is registered |
| ChatServer.LateResultAfterOne | src/chat-server.c:44-56 | with one removal in between it is the added client exactly when the client that left stood last among the others |
| ChatProtocol.RegistryDistinctIff | src/chat-server.c:47-117 | for every run, with descriptors reused at once, failing accepts and late reads: registered descriptors are distinct in every state if and only if no failed accept is registered while another one still is |
| ChatProtocol.RemovalExact | src/chat-server.c:47-62 | in every run a removal takes exactly the leaving client if its descriptor is real, or if descriptors are distinct; a handler is then left with the freed entry exactly if a second one worked on that client |
| ChatProtocol.HandlersSoundIff | src/chat-server.c:30-128 | for every run: descriptors are distinct and every client has its one handler in every state, if and only if no second failure is registered beside a first and no other client is read than the one just registered; and then no handler is left with a freed entry |
| ChatProtocol.FreedInUseIff | src/chat-server.c:30-128 | after any run without such a step, the next step makes a handler with a freed entry reachable, with no further such step, if and only if it is one |
| ChatProtocol.FailuresInARow | src/chat-server.c:114-117 | two failures from the start: the second handler frees the entry of the first |
| ChatProtocol.LateReadRun | src/chat-server.c:41-62 | a run without a failure: the late read starts a second handler for a client, which then works on the freed entry |
| ChatProtocol.TotalOrderBroadcast | src/chat-server.c:185-199 | in every interleaving, what a real connection is sent is the contiguous segment of the messages of the broadcast events, from its registration event to its leaving event, or to the end, each message once, in order and as it was broadcast |
| ChatProtocol.RunTells | src/chat-server.c:30-199 | in every run the log, the registrations and the departures are those of the events |
| ChatProtocol.BroadcastReaches | src/chat-server.c:192-199 | while the mutex is free any message can be broadcast, and then every registered real connection has exactly that message added and no other connection anything |
| ChatProtocol.Join | src/chat-server.c:30-128 | while the mutex is free and the loop is at accept, a client with any unused descriptor, or a failure, can join and gets its handler |
| ChatProtocol.Leave | src/chat-server.c:47-62 | while the mutex is free a real client's handler can leave and takes exactly its entry |
| ChatProtocol.LateRead | src/chat-server.c:41-45 | the late read waits for nobody and gives the client that stands last |
| ChatProtocol.NothingBeforeJoining | src/chat-server.c:114-117 | an accepted connection is sent nothing before it is registered |

## Left out

- ChatServer.ChatServer.Add: another thread acting before the result is read is modelled in ChatProtocol only.
- ChatProtocol.TotalOrderBroadcast: a run ends when an entry is freed under its own handler, since nothing is defined after that.
- PoolEvents.Drain: a push that passed the `running` test and enqueues after `safe_queue_destroy` touches freed memory; the model stops at the last join.
- PoolEvents.EveryRun: the queue is assumed to be the intended FIFO, which the code guarantees only in the cases that RingBuffer, QueueRace and WrittenPool give.
- WrittenPool.ShutdownIff: each queue call is one step, so the race on the unlocked test is treated in QueueRace only.
- RingBuffer.FifoRefinement: a waiting dequeue that is woken by a later enqueue is modelled in ThreadPool only.
- Request.HeaderlessExact: when the body starts with further line breaks, the offset stops short of the line just cut; what is read from there is not stated, only the first header.
- Request.ParseExact: requests that start with a line break, have a lone CR or LF in a line, or end inside the request line are covered by RequestParse and StopsInside only.
- Context.ParseRoundTrip: what URL the path resolves to is not modelled; whether it resolves is a parameter.
- UTF-8 decoding and Unicode letter case: text is a sequence of bytes with ASCII case.
- Sockets, signals, listening, process exit and most of `src/http-server.c` and `src/main.c`: input and output, present only as steps of the interleavings.
- The destroy path running inside a signal handler of the accepting thread: the destroyer is a thread of its own.
- Stream mode, static files, MIME types and the router: file system and tables with shallow properties.
- Middlewares, accounts, cookies, forms, chat files and the GPT client: short handlers dominated by file system, clock and cryptography.
- Allocation failure, 32-bit overflow of counters, and `size_t` wrap-around: memory is sufficient and counters are unbounded.
- Destructors other than `headers_destroy`: they only free.
