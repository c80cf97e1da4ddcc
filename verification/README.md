# Verified model of the challenge server

A web server in C for a capture-the-flag contest, modelled in Dafny. Five parts are covered; each is a set of
modules, one module per file.

* **Lifetime of connections, requests and contexts** — `Lifetime` is the server as a transition system in which every
  object has an explicit place in memory; a step that would use freed memory, free it twice or leak a header buffer has
  no successor. `LifetimeSafety` and `LifetimeRuns` hold the invariant and the theorems over all runs, `LifetimeEffects`
  what each operation brings about for the connection at hand, `ServerHeap` the same operations as methods on linked
  lists and weak pointers, and `SendBuffer` the scatter list of a response.
* **Completion queues** — `PasswordWorker` and `DbPool` are the two worker protocols, one step per critical section;
  `Notification` is the eventfd behind both. `LinkedQueue` and `WorkerQueues` are the queues as linked nodes.
* **HTTP requests** — `HttpParser` says what the parser knows after a given sequence of bytes; `HttpRequest` is the
  parser object that works chunk by chunk on its buffer, `HttpReceive` the receive loop around it. `HttpMessage` holds
  well-formed requests and their texts, `HttpRoundTrip` shows that these are taken apart into their parts,
  `HttpAccepts` that nothing else is accepted, `HttpRefusals` which status the others get, and `HttpFields` what the
  recorded fields mean. `UriText` and `UriNormalize` treat the request target, which is decoded and rewritten inside the
  receive buffer, and `UriTargets` says what comes out in terms of the parts a target is put together from.
* **JSON** — `JsonGrammar` holds syntax trees and their texts, `JsonReader` the reader as functions, `JsonParser` the
  reader as a cursor object. `Utf8`, `JsonString` and `JsonDecoder` treat string literals, `JsonSpelling`
  the ways of spelling a text in one, `JsonFields` the fields a reader stores, `JsonRequest` and `JsonAuth` the two
  request readers, `JsonRequestText` and `JsonCredentials` the texts they accept, `JsonChallenge` the printer.
* **Scores and contest times** — `Score` is the merge of sorted users and answers, `Contest` the reading of timestamps
  and the calendar.

`Spellings` gives the names and texts of all parts in characters.

Where the C code changes a buffer, a record or a list in place, the Dafny method does so too, and its contract equates
the result with a function whose meaning is proved separately. Results of the outside world (bytes that arrive, memory
that is there or not, what a write reports, what a handler decides, which thread moves next) are parameters.

Bytes are integers from 0 to 255, sizes are unbounded natural numbers; the places where the C code guards against
overflow are modelled with the same guards. `<=` between sequences means prefix.

Three statements one might expect are false of the code, and the exact condition is proved instead:

* Completions of the password worker are not first in, first out after a stop: `PasswordWorker.NotFifo` is a run in
  which a waiting job is cancelled ahead of the running one, and `PasswordWorker.FifoExactly` shows that the order is
  kept if and only if, at the stop, no job was running or none was waiting.
* The database pool does not complete tasks in the order of submission: `DbPool.FifoExactly` shows that all runs keep
  the order if and only if there is at most one worker. With two or more, task 1 can overtake task 0
  (`DbPool.TwoWorkersOvertake`).
* A recorded field name may contain whitespace, against section 5.1 of RFC 9112: the code does not check the first
  byte. `HttpAccepts.SpaceInName` is an accepted request that shows it, and `HttpAccepts.WhitespaceInNames` the exact
  condition on the request: some recorded name contains whitespace if and only if some field line begins with a space
  or a tab.

## Model

| member | source | states |
|---|---|---|
| LifetimeSafety.RemoveCore | src/server_connection.c:30-77 | closing a connection never touches a freed object, and keeps the list, pointer, allocation and response invariants; a request goes exactly when it has no context either |
| LifetimeSafety.RemovePointers | src/server_connection.c:58-70 | after a close all weak references are still paired and every live request still has an owner |
| LifetimeSafety.DisposeCore | src/http_server.c:8-20 | disposing of a context frees it once, and its request exactly when the connection is gone, keeping all invariants |
| LifetimeSafety.ReapCore | src/server_connection.c:79-88 | reaping frees each retired connection once, empties the list and touches nothing else |
| LifetimeSafety.SendCore | src/server.c:508-550 | a response is started on an open connection without one, so no header buffer leaks; then the connection is closed or blocked |
| LifetimeSafety.AcceptCore | src/server.c:314-367 | accepting any number of connections keeps the invariants |
| LifetimeSafety.ArriveCore | src/server.c:402-446 | a request that is refused, answered at once or handed to a queue leaves every object owned and every response accounted for |
| LifetimeSafety.RouteCore | src/http_server.c:42-98 | a handler that completes gives its context back before the answer; one that submits leaves it to exactly one operation |
| LifetimeSafety.CompleteCore | src/server.c:394-398 | a completed continuation starts the response, then disposes of the context, whether or not the send closed the connection |
| LifetimeSafety.DrainCore | src/server.c:376-399 | one turn of a drain loop, of either queue, uses live objects only and keeps the invariants |
| LifetimeEffects.AcceptAdds | src/server.c:314-367 | n accepts put n new connections, open and without request or response, in front of the others, which stay as they are |
| LifetimeEffects.ArriveEffect | src/server.c:402-446 | a first readable event: without memory the connection is closed and no handler runs; a rejected request is answered without a handler; one whose handler completes is answered and its context is gone; one whose handler submits waits at the end of the queue it was submitted to, open and unanswered |
| LifetimeEffects.StartEffect | src/server.c:508-550 | a response leaves the connection open exactly when it is blocked, and touches no other connection |
| LifetimeEffects.OrphanEffect | src/server.c:384-390 | a completion whose connection is gone loses its context and request and reaches no handler |
| LifetimeEffects.CompletionEffect | src/server.c:376-399 | a completion whose connection is there is answered or submitted again to the queue its handler wants; the handler is called once, or not at all for a cancelled job |
| LifetimeRuns.StepInv | src/server.c:141-280 | no step of the event loop, of destroy_server or of a worker uses freed memory, and each keeps the invariant |
| LifetimeRuns.ServerRuns | src/server.c:159-231 | over every run from the start: no fault, each allocated object is live or was freed exactly once, a request lives exactly as long as a connection or context refers to it, events of the current batch never point to freed connections, and no connection starts two responses |
| LifetimeRuns.RunInv | src/server.c:141-280 | every run, with any number of workers, goes through without a fault and ends in the invariant |
| LifetimeRuns.ResponsesLive | src/server.c:508-534 | in every reachable state an open connection with a response has a live request that points back to it and that no handler context can dispose of: the memory the second vector points to |
| LifetimeRuns.ResponseStays | src/server.c:472-506 | no step of any thread takes that request away while the connection is open |
| LifetimeRuns.DestroyStep | src/server.c:234-280 | while the server is destroyed no handler runs, nothing is allocated, and every step brings the end closer |
| LifetimeRuns.DestroyNeverStuck | src/server.c:242-262 | before the end the main thread or a worker can always go on |
| LifetimeRuns.DestroyRuns | src/server.c:234-280 | from any reachable state every interleaving of destroy_server with the workers is bounded, runs no handler, and ends with no object left and each freed once |
| LifetimeRuns.DestroyCompletes | src/server.c:234-280 | the end can be reached from every state of destroy_server |
| ServerHeap.Server.RemoveConnection | src/server_connection.c:30-77 | on the linked lists: the new state is that of the transition system |
| ServerHeap.Server.Unlink | src/server_connection.c:44-56 | taking a node out of the doubly linked list leaves a well-linked list of the others, in order |
| ServerHeap.UnlinkKeeps | src/server_connection.c:46-58 | links that go around one element of a list are the links of the list without it |
| ServerHeap.Server.Reap | src/server_connection.c:79-88 | the retired chain is freed node by node, each next pointer read before its node is freed |
| ServerHeap.Server.DisposeContext | src/http_server.c:8-20 | on the heap: the new state is that of the transition system |
| ServerHeap.Server.StartSend | src/server.c:508-550 | on the heap: the header buffer is given to the connection once, and the outcome decides between blocked and closed |
| ServerHeap.Server.Respond | src/server.c:508-550 | with the bytes of header and body and the results of the writes: the connection stays open exactly while something is left to send, no write has failed and the socket could be watched; without a header it is closed |
| ServerHeap.Server.SendMore | src/server.c:189-197 | on a writable event the connection is kept, unchanged, exactly while something is left to send and no write has failed |
| ServerHeap.Server.AddClient | src/server.c:355-364 | a new connection becomes the head of a well-linked client list |
| ServerHeap.Server.Accept | src/server.c:314-367 | the accept loop: the client list grows by n open connections that were not there before, without request or response, in front of the others |
| ServerHeap.Server.Arrive | src/server.c:418-445 | on the heap: without memory the connection is closed; a rejected request and one whose handler completes are answered, and the connection stays open exactly when the answer is blocked; a submitted one waits in its queue |
| ServerHeap.Server.Route | src/http_server.c:62-91 | on the heap: context creation, handler call, disposal before the answer |
| ServerHeap.Server.HandleClient | src/server.c:174-208 | one event of the batch: nothing happens for a connection closed earlier in the batch; an error closes it; a writable event closes it exactly when all is sent or a write failed; a further readable event closes it exactly when the peek finds something |
| ServerHeap.Server.HandleCompletion | src/server.c:376-399 | one completion of either queue: without a connection only its context goes; otherwise its handler is called, unless the job was cancelled, and answers or submits again |
| ServerHeap.Server.HandleEvent | src/server.c:174-224 | on the heap: any event of a batch with whatever it meets, completions drained to the end, is a run of the transition system; a listen event adds the accepted connections, a client event closes its connection exactly as its kind says |
| ServerHeap.Server.HandleBatch | src/server.c:174-230 | the events of one epoll_wait up to a signal and the reaping behind them, with workers that move at any time, are a run of the transition system that ends idle, or closing exactly when a signal is among the events |
| ServerHeap.Server.Serve | src/server.c:141-232 | the whole event loop over any batches of reported events is a run of the transition system |
| ServerHeap.Server.ServeAndDestroy | src/server.c:141-280 | a server from start to end on the linked lists, whatever happens outside: one run of the transition system, at whose end every object has been freed exactly once |
| ServerHeap.Server.LetWorkers | src/db.c:248-290 | whatever steps the worker threads take between two steps of the main thread, and however many, they are steps of the transition system |
| ServerHeap.Server.HandleCompletions | src/app/password_worker_http.c:19-49 | the drain loop, with workers that go on meanwhile and handlers that submit further operations, is a run of drain and worker steps that ends with an empty done list |
| ServerHeap.Server.Destroy | src/server.c:234-280 | the whole of destroy_server on the heap, with any number of workers that move at any time, is a run of the transition system to its end: all memory maps are empty, every object has been freed exactly once and no handler has run |
| SendBuffer.Response.constructor | src/server.c:522-534 | the vectors hold header then body, an empty body getting none |
| SendBuffer.Response.AdvanceIovec | src/server.c:449-470 | after n written bytes exactly the rest remains, and the result says whether nothing does |
| SendBuffer.Response.Send | src/server.c:472-506 | over any partial writes, bytes sent followed by bytes remaining are header followed by body, and exactly as many are sent as the writes take before one blocks or fails; success exactly when everything is sent, an error exactly when a write failed before that |
| PasswordWorker.StepInv | src/app/password_worker.c:68-120 | every critical section, append, notification and stop keeps the invariant |
| PasswordWorker.EveryRun | src/app/password_worker.c:196-311 | over every run: accepted jobs in order are finished, then at most one running, then waiting or cancelled ones; none lost, duplicated or both run and cancelled; `waiting` is the list length and at most 16; no completion is stranded |
| PasswordWorker.NoneStranded | src/app/password_worker.c:111-119 | in every run, while a completion waits, somebody is about to notify, the edge will be reported, or the main thread is on its way to drain |
| PasswordWorker.InHandOnly | src/app/password_worker.c:74-118 | the job being worked on is in neither list and has not been handed back |
| PasswordWorker.NothingAfterStop | src/app/password_worker.c:217-235 | after a stop no run accepts a job |
| PasswordWorker.Fills | src/app/password_worker.c:217-227 | from any state before a stop, further jobs are accepted until sixteen wait, and only then is one refused for want of room |
| PasswordWorker.FullQueueReachable | src/app/password_worker.h:7-7 | a run from the start in which sixteen jobs wait and the next is refused |
| PasswordWorker.AllDelivered | src/app/password_worker.c:275-332 | once the thread is joined and the done list drained, every accepted job has been handed back once |
| PasswordWorker.FifoExactly | src/app/password_worker.c:283-296 | completion order is submission order, in every later state, if and only if at the stop no job was running or none was waiting |
| PasswordWorker.FifoBeforeStop | src/app/password_worker.c:84-92 | before a stop completions are a prefix of the submissions |
| PasswordWorker.NotFifo | src/app/password_worker.c:283-311 | a concrete run in which job 1 completes before job 0 |
| DbPool.StepInv | src/db.c:74-120 | every critical section and notification keeps the invariant, with any number of threads |
| DbPool.EveryRun | src/db.c:248-290 | over every run: each accepted task is in the queue, in one thread's hands or appended to the done list once; a thread exits only when the pool is stopped and the queue empty; no completion is stranded |
| DbPool.StopReturns | src/db.c:415-432 | when db_pool_stop returns the task queue is empty and every accepted task has reached the done list |
| DbPool.NoneStranded | src/db.c:284-290 | in every run, while a completion waits, a worker is about to notify, the edge will be reported, or the main thread is on its way to drain |
| DbPool.InOneHand | src/db.c:248-284 | a task that a worker has in hand is in neither queue, has not been handed back and is with no other worker |
| DbPool.FifoExactly | src/db.c:347-355 | in all runs completions are a prefix of the submissions if and only if there is at most one worker |
| DbPool.OneWorkerIsFifo | src/db.c:248-290 | with one worker completions are a prefix of the submissions |
| DbPool.TwoWorkersOvertake | src/db.c:248-290 | with any number of workers from two on, a run in which tasks complete out of order |
| LinkedQueue.Queue.Append | src/db.c:74-92 | a node is appended through the tail pointer; the queue is well linked and holds one more at the end |
| LinkedQueue.Queue.TakeFirst | src/db.c:110-119 | the head is taken, the tail reset with the last node |
| WorkerQueues.DbQueues.Take | src/db.c:94-120 | task_queue_pop leads from one shown state to the next; null exactly for an exiting worker; the task taken is in neither queue any more |
| WorkerQueues.DbQueues.Push | src/db.c:74-92 | task_queue_push is the step of the transition system |
| WorkerQueues.DbQueues.Finish | src/db.c:284-284 | pushing the task in hand on the done queue is the step of the transition system, whatever other threads have done since it was taken |
| WorkerQueues.DbQueues.GetCompleted | src/db.c:591-611 | the oldest completed task, null exactly when there is none |
| WorkerQueues.DbQueues.Replay | src/db.c:74-120 | every run of the transition system, with any number of workers, is a run of the linked queues, which hand back the same tasks in the same order |
| WorkerQueues.PasswordQueues.Submit | src/app/password_worker.c:216-273 | stopped exactly after a stop, full exactly with sixteen jobs waiting, out of memory or queued otherwise, with the new lists of the transition system |
| WorkerQueues.PasswordQueues.Take | src/app/password_worker.c:74-94 | the critical section of the worker's loop is the step of the transition system; the job taken is in neither list any more |
| WorkerQueues.PasswordQueues.Finish | src/app/password_worker.c:42-58 | append_done of the job in hand is the step of the transition system, whatever the main thread has done since it was taken |
| WorkerQueues.PasswordQueues.Stop | src/app/password_worker.c:283-299 | all waiting jobs, and only they, are marked as cancelled and moved behind the done list in order |
| WorkerQueues.PasswordQueues.Pop | src/app/password_worker.c:313-332 | the oldest done job with its next pointer cleared, null exactly when there is none |
| WorkerQueues.PasswordQueues.Replay | src/app/password_worker.c:68-332 | every run of the transition system, stops included, is a run of the linked lists, which hand back the same jobs in the same order |
| HttpReceive.ParseHttpRequest | src/http_request.c:49-125 | the reply and everything recorded are functions of the bytes and the way they end, not of how they were cut; a well-formed request is answered 414, 400 or 200 according to its query and target, and with 200 the target holds the path and parameters of its text; a refused one gets the status of its refusal, an incomplete one 400 at the end of the stream and 500 when it breaks |
| HttpReceive.ReplyToMessage | src/http_request.c:78-99 | any well-formed request at the front of the bytes is answered 414 when its query has more than 32 pairs, else 400 when its target names no path, else 200 |
| HttpRefusals.UnknownMethod | src/http_request.c:197-208 | 501 exactly for eight bytes that begin with none of the nine methods; every other refusal is one of 400, 413, 431 and 505 |
| HttpRefusals.BrokenTarget | src/http_request.c:222-245 | 400 for an empty target or a line end in front of the space behind it |
| HttpRefusals.UnknownVersion | src/http_request.c:250-283 | 505 for any version text but HTTP/1.0 and HTTP/1.1 |
| HttpRefusals.NoFurtherField | src/http_request.c:309-334 | behind any fields: 431 for a thirty-third field, 400 for an empty name |
| HttpRefusals.BrokenName | src/http_request.c:338-368 | 400 for whitespace or a line end behind the first byte of a name |
| HttpRefusals.ForbiddenField | src/http_request.c:388-395 | 400 at the end of the line of a field that must not be sent behind the earlier ones |
| HttpRefusals.LoneReturn | src/http_request.c:428-437 | 400 for a carriage return without line feed at the end of the header section |
| HttpRefusals.BodyTooLong | src/http_request.c:462-470 | 413 exactly when the bytes of the head and the declared body together reach 65536 |
| HttpRefusals.HeadTooLong | src/http_request.c:169-178 | 431 for the 4096th byte of a header section that is still open |
| HttpRefusals.LongTarget | src/http_request.c:169-178 | 431 for a target that runs through the first 4095 bytes |
| HttpReceive.ReceiveTwice | src/http_request.c:66-123 | two ways of cutting the same bytes into non-empty chunks lead to the same reply |
| HttpReceive.DeliveriesStream | src/http_request.c:66-88 | the stream of any deliveries is the concatenation of the chunks, up to the first end |
| HttpReceive.Finish | src/http_request.c:90-102 | a complete request is answered 414 when its query has more than 32 pairs, else 400 when its target names no path, else 200 |
| HttpRequest.Request.ParseChunk | src/http_request.c:156-484 | after any chunk the parser stands where it would after any other division of the same bytes |
| HttpRequest.Request.ParseFrom | src/http_request.c:169-477 | the loop over a chunk equals stepping byte by byte |
| HttpRequest.Request.OnMethod | src/http_request.c:181-214 | waiting for eight bytes and going back behind the token loses and repeats no byte |
| HttpRequest.Request.OnBody | src/http_request.c:439-451 | taking all available body bytes at once equals taking them one by one |
| HttpRequest.Request.ParseMethod | src/http_request.c:486-552 | comparing one masked 64-bit number recognises exactly the nine methods followed by a space |
| HttpRequest.MethodValues | src/http_request.c:15-23 | the numbers of the method table are the little-endian values of the method tokens |
| Spellings.MethodTokens | src/http_request.c:15-23 | the tokens of the nine methods, in characters |
| Spellings.HeaderNames | src/http_request.c:596-641 | the four known field names and the characters of targets, in characters |
| Spellings.LetterCase | src/http_request.c:127-154 | names are compared letter by letter, small and capital letters alike |
| HttpRequest.Request.ParseVersion | src/http_request.c:554-594 | exactly HTTP/1.0 and HTTP/1.1 are accepted |
| HttpRequest.Request.ParseHeader | src/http_request.c:596-641 | the switch on the first letter finds exactly the four known names in any letter case; a refused field changes nothing |
| HttpRequest.Request.ParseLength | src/http_request.c:608-618 | the exact decimal value, None when a byte is no digit or the value exceeds a size_t |
| HttpRequest.Request.GetHeader | src/http_request.c:127-154 | the first header of that name, letter case aside, and None exactly when there is none |
| HttpParser.SettledStays | src/http_request.c:164-167 | a request that is complete or refused stays as it is whatever else arrives |
| HttpParser.RoomForMore | src/http_request.c:462-475 | whenever more data is asked for there is room: fewer than 4096 bytes before the body, header plus declared body below 65536, settled within 65535 bytes |
| HttpParser.AfterWithin | src/http_request.c:215-427 | every recorded offset lies in the bytes received, and at most 32 headers are recorded |
| HttpParser.StatusSaysFailure | src/http_request.c:172-177 | the status differs from 200 exactly when the request has been refused |
| HttpParser.FeedBody | src/http_request.c:439-451 | many body steps are one addition |
| HttpParser.LaunchFeeds | src/http_request.c:197-214 | after the eighth byte the bytes behind the method token are parsed as if they came later |
| HttpFields.ContentLengthIsExact | src/http_request.c:597-620 | at most one Content-Length was taken, and the content length is its exact value, 0 without one |
| HttpFields.RecordedNames | src/http_request.c:301-376 | names contain no colon, and whitespace exactly when their first byte is a space or a tab |
| HttpRoundTrip.ParsePrinted | src/http_request.c:156-484 | a well-formed request (section 3 of RFC 9112), with CRLF or bare LF behind each line and spaces and tabs around each value, is taken apart into exactly its method, target, version, fields and body, whatever follows it; the Content-Type and Host offsets are those of the last such field |
| HttpRoundTrip.FieldIsStored | src/http_request.c:596-641 | a field is taken exactly when it may be sent behind the earlier ones |
| HttpAccepts.AcceptedIsPrinted | src/http_request.c:156-484 | whatever the parser accepts is the text of a well-formed request and something behind it |
| HttpAccepts.AcceptsExactly | src/http_request.c:156-484 | the parser accepts a text if and only if a well-formed request within the limits stands at its front |
| HttpAccepts.WhitespaceInNames | src/http_request.c:301-376 | some recorded name of an accepted request contains whitespace if and only if some field line begins with a space or a tab |
| HttpAccepts.SpaceInName | src/http_request.c:301-345 | an accepted request whose recorded field name begins with a space |
| UriText.DecodePieces | src/http_request_path.c:29-67 | decoding inverts percent-encoding, whichever bytes were escaped (section 2.1 of RFC 3986) |
| UriText.DecodedIsPieces | src/http_request_path.c:29-67 | only such texts decode; a bad escape or an escaped NUL is refused |
| UriText.NormalPathHasNames | src/http_request_path.c:69-139 | a normal path starts with a slash and has no empty, `.` or `..` segment |
| UriText.NormalPathIdempotent | src/http_request_path.c:69-139 | normalising twice is normalising once |
| UriText.ResolveFailsAboveRoot | src/http_request_path.c:106-112 | the fold fails exactly when some prefix of the segments leads above the root; otherwise it keeps as many names as the depth |
| UriText.ServedPathHasNames | src/http_request_path.c:141-215 | whatever the target, the path served starts at the root and has no dot segment, escapes included |
| UriText.ParsePrintedPairs | src/http_request_path.c:235-285 | printed name-value pairs, names without `=` and values without `&`, are recovered exactly |
| UriText.ParsedIsPrinted | src/http_request_path.c:235-285 | any query is the printed form of the pairs found in it and a tail without `=` |
| UriText.OffsetsDenotePairs | src/http_request_path.c:252-284 | the recorded offsets denote exactly these pairs |
| UriTargets.WholeTarget | src/http_request_path.c:217-301 | for a target made of a path, perhaps a fragment, a question mark and printed pairs, exactly these pairs and this path are found; without a question mark no pairs |
| UriTargets.OriginForm | src/http_request_path.c:205-215 | a decoded target that begins with a slash is normalised as it is |
| UriTargets.AbsoluteForm | src/http_request_path.c:164-203 | scheme, in any letter case, and authority are left out; a slash stands for a missing path |
| UriTargets.NoForm | src/http_request_path.c:158-210 | any other decoded target names no path |
| UriTargets.EscapeOf | src/http_request_path.c:44-59 | a byte escaped by its two hexadecimal digits decodes to itself, in any letter case; the zero byte is refused |
| UriTargets.SegmentsSpread | src/http_request_path.c:83-98 | the segments with slashes between them are the path |
| UriTargets.SurvivorsAreKept | src/http_request_path.c:100-131 | the names kept are exactly the segments that no later `..` takes back, each at its depth |
| UriTargets.NormalPathIs | src/http_request_path.c:69-139 | the normal path is a slash in front of each such segment, a lone slash when there is none, and missing exactly when `..` leads above the root |
| UriNormalize.UrlDecode | src/http_request_path.c:29-67 | in place: the decoded text at the front, None exactly for a bad escape, nothing outside the text changed |
| UriNormalize.NormalizePath | src/http_request_path.c:69-139 | in place: the stack fold over the segments, though the buffer is overwritten while it is read |
| UriNormalize.CopySegment | src/http_request_path.c:126-131 | a segment is copied forward over its own buffer without reaching unread bytes |
| UriNormalize.PopSegment | src/http_request_path.c:114-121 | going back to the last slash drops exactly the last name |
| UriNormalize.Target.ParseQueryParams | src/http_request_path.c:217-301 | all parameters behind the first question mark (a fragment does not stop the search), or the first 32 and a refusal; the target ends at the first `?` or `#` |
| UriNormalize.Target.NormalizeUri | src/http_request_path.c:141-215 | the outcome and the new path are those of the text; the recorded parameters keep their texts although the buffer in front of them is rewritten |
| UriNormalize.Target.FindPath | src/http_request_path.c:164-203 | the absolute forms lose scheme and authority, in any letter case |
| JsonReader.ReaderAcceptsGrammar | src/app/json_parser.c:318-442 | the reader accepts exactly the texts of valid values nested within the limit, with raw-distinct keys, and stops exactly behind the value (section 2 of RFC 8259) |
| JsonReader.ValueSound | src/app/json_parser.c:318-442 | whatever is read is the text of a valid tree |
| JsonReader.ValueComplete | src/app/json_parser.c:318-442 | the text of every valid tree is read, up to a suffix that does not continue a number |
| JsonReader.ObjectComplete | src/app/json_parser.c:238-316 | objects with raw-distinct keys are read whole |
| JsonParser.Parser.ReadAny | src/app/json_parser.c:318-442 | the cursor reader terminates, accepts what the functional reader accepts and stops where it stops; it fails with -2 exactly after an allocation of a key list entry has failed |
| JsonParser.Parser.ReadFields | src/app/json_parser.c:238-316 | the loop with key list and callback stores what storing the members in order gives, as long as memory suffices |
| JsonParser.Parser.ReadNewKey | src/app/json_parser.c:259-296 | a key is taken exactly when no earlier key has the same raw bytes and its list entry can be allocated |
| JsonParser.Parser.ParseJsonStr | src/app/json_parser.c:26-146 | the loop accepts exactly the literals of section 7 of RFC 8259 in valid UTF-8, unpaired surrogate escapes included |
| JsonParser.Parser.ReadPositiveInteger | src/app/json_parser.c:444-471 | digits without leading zero, up to INT_MAX, and the cursor unmoved otherwise |
| JsonParser.MatchAuthField | src/app/json_auth.c:15-40 | a key is matched by its decoded text |
| JsonString.ScanSound | src/app/json_parser.c:26-146 | what the scanner accepts is a sequence of characters and escapes and a quote |
| JsonString.ScanComplete | src/app/json_parser.c:26-146 | every such sequence is accepted |
| JsonString.DecodePrinted | src/app/json_string.c:44-165 | decoding the text of a literal gives its scalar values, None for a lone surrogate |
| JsonString.DecodableIffReadablePaired | src/app/json_string.c:199-264 | the decoder accepts a slice exactly when the reader accepts it between quotes and it has no lone surrogate escape |
| JsonString.DecodedNeverLonger | src/app/json_string.c:214-222 | decoding never needs more bytes than the slice has |
| JsonString.DecodeIsIdentityOnPlain | src/app/json_string.c:199-264 | valid UTF-8 without escapes decodes to itself |
| JsonSpelling.ShortEscapes | src/app/json_string.c:58-79 | the eight short escapes of section 7 of RFC 8259 decode to 34, 92, 47, 8, 12, 10, 13 and 9 |
| JsonSpelling.EscapedDecodes | src/app/json_string.c:80-104 | the backslash-u spelling computed from any scalar value, as a surrogate pair above 0xFFFF, decodes to it, in any letter case |
| JsonSpelling.SpelledDecodes | src/app/json_string.c:199-264 | any text, each character spelled as it is, by a short escape or by its number, decodes to that text |
| JsonDecoder.HexQuad | src/app/json_string.c:6-42 | four hexadecimal digits and their value, none otherwise |
| JsonDecoder.ReadCodepointAt | src/app/json_string.c:44-165 | one scalar value, from UTF-8, an escape or a surrogate pair |
| JsonDecoder.EqualDecoded | src/app/json_string.c:167-197 | 1 exactly when both decode to the same bytes, 0 when to different ones, -1 when either is invalid |
| JsonDecoder.Decode | src/app/json_string.c:199-264 | the buffer holds exactly the UTF-8 of the scalar values read and a NUL, within the size of the slice |
| Utf8.EncodeAllInjective | src/app/json_string.c:185-193 | different scalar sequences have different UTF-8, so comparing scalars is comparing bytes |
| Utf8.FirstOfEncode | src/app/json_string.c:118-164 | reading inverts encoding (section 3 of RFC 3629) |
| Utf8.FirstIsEncode | src/app/json_string.c:118-164 | only shortest forms of scalar values are read |
| Utf8.EncodeExamples | src/app/json_string.c:224-257 | the bytes of the first and last scalar value of each length and of four examples |
| JsonRequest.JsonToCreateChallengeRequest | src/app/json_request.c:79-112 | 0 for accepted, -1 for invalid, and -2 if and only if one of the key list allocations asked for while reading, at most one per byte, failed |
| JsonRequestText.AcceptsExactlyRequests | src/app/json_request.c:79-112 | accepted are exactly objects with raw-distinct keys, nested within the limit, in which name, description, flag and genre, spelled without escapes, are strings within the limits and the genre is known; other members may be anything |
| JsonRequestText.MembersStored | src/app/json_request.c:18-62 | the fold over the field callback finds each field by its key, wherever it stands among the members |
| JsonRequest.CountIsScalars | src/app/json_request.c:64-78 | counting non-continuation bytes counts characters |
| JsonRequest.RoundTrip | src/app/json_request.c:79-112 | a printed challenge is read back with the same name, description, flag and genre, id and creator skipped |
| JsonRequest.LimitsExactly | src/app/json_request.c:95-106 | a printed challenge is taken exactly when name and flag have 1 to 255 characters and the description at most 65535 bytes |
| JsonRequest.PrintAndRead | src/app/json.c:29-86 | the same for the buffer the printer fills and the reader reads, if memory suffices |
| JsonRequest.FlaglessIsRefused | src/app/json.c:95-98 | the form without flag is never taken for a request |
| JsonChallenge.ChallengeToJson | src/app/json.c:29-86 | the computed size and the text: exact but for bytes behind a NUL in a slice |
| JsonChallenge.ChallengeLength | src/app/json.c:40-80 | the text has the length the code adds up, with each slice counted up to its first NUL |
| Spellings.ChallengeSpelled | src/app/json.c:62-82 | the text key by key, in characters |
| Spellings.ListSpelled | src/app/json.c:132-155 | brackets around the list and a comma in front of each further challenge |
| JsonChallenge.ChallengesToJson | src/app/json.c:100-159 | for at least one challenge the list fills the size that was computed; failing allocations give a null buffer |
| JsonChallenge.IntStringLength | src/app/json.c:8-27 | the number of characters of a printed int |
| JsonAuth.JsonToAuthRequest | src/app/json_auth.c:72-132 | 0 for accepted, -1 for invalid, and -2 if and only if an allocation that was asked for failed: one of the key list, or the decoder's for a valid username or for a valid password behind it |
| JsonAuth.AcceptsExactlyPairs | src/app/json_auth.c:72-132 | accepted are exactly objects of one `username` and one `password`, however escaped, with decoded values within the limits |
| JsonCredentials.LoginAccepted | src/app/json_auth.c:72-132 | the text of a login whose two strings stand for u and p, however spelled and in either order, is accepted with u and p exactly when u has 3 to 32 bytes, all letters, digits, underscores or hyphens, and p 8 to 128 bytes without a zero byte |
| Spellings.KeysOfRequests | src/app/json_request.c:18-36 | the keys of both requests, in characters |
| Spellings.GenreNames | src/app/model.c:8-78 | the names of the genres, in characters |
| Spellings.JsonCharacters | src/app/json_parser.c:26-146 | structural characters, white space, escapes and words, in characters |
| Score.CalculateUserScores | src/app/score.c:43-94 | the board holds every user with 100 points for each different challenge answered before the end; the higher score stands first, and of equal scores the id whose first differing byte is smaller |
| Score.BoardLists | src/app/score.c:58-88 | every user is on the board with 100 points for each different challenge that one of the user's answers solved before the end |
| Score.BoardDescends | src/app/score.c:29-41 | of any two users on the board the earlier has the higher score, or the same score and the lower id |
| Score.LessIsFirst | src/app/score.c:14-20 | one id is lower than another exactly when its first differing byte is smaller or it is a proper prefix |
| Score.ScoreUser | src/app/score.c:62-87 | the inner loop counts the distinct eligible challenges of one user in one pass |
| Score.ScoreUsers | src/app/score.c:58-88 | one pass over both sorted arrays scores every user |
| Score.BoardIsUnique | src/app/score.c:48-93 | the board is the same for every order of users and answers and every way of sorting |
| Score.AnswersOrder | src/app/score.c:14-27 | the answer comparator is a total preorder, as qsort needs |
| Score.ScoresOrder | src/app/score.c:29-41 | the score comparator is a total preorder |
| Score.ScoreFits | src/app/repository_auth.c:326-329 | with the challenge ids the repository guarantees a score stays far below the limit of 64 bits |
| Contest.ContestTimeParse | src/app/contest.c:24-107 | accepted exactly are the printed times with a zone whose value is not before the epoch, with that value; null and empty give 0 |
| Contest.ReadDigits | src/app/contest.c:6-22 | the number of a run of digits, -1 otherwise |
| Contest.AcceptedExactly | src/app/contest.c:35-104 | the checks of the code accept exactly the texts that stand for a number |
| Contest.SecondsOfAfter | src/app/contest.c:91-98 | the closed form is the number of seconds found by stepping the Gregorian calendar from the epoch |
| Contest.AfterSeconds | src/app/contest.c:91-98 | stepping that many seconds gives the time back, so times and numbers correspond one to one |
| Contest.SecondsMonotone | src/app/contest.c:91-98 | later times, field by field, have greater numbers |
| Contest.DaysByMarchYears | src/app/contest.c:90-96 | the days since the epoch are those of the formula that lets the year begin in March |
| Contest.MonthFormula | src/app/contest.c:82-96 | the days in front of a month are those of the same formula |
| Contest.ClocksMean | src/app/contest.c:57-74 | what a clock ahead of UTC shows, printed with a plus sign, and what one behind shows, with a minus sign, stand for the UTC time |
| Contest.TextExample | src/app/contest.c:24-107 | the second example of section 5.8 of RFC 3339 and its equivalent in UTC stand for 851042397 |
| Contest.FourDigitYears | src/app/contest.c:77-98 | four-digit years are exactly the numbers up to 253402300799 |
| Contest.MeansOne | src/app/contest.c:24-107 | a text stands for one number at most |
| Contest.ParsePrinted | src/app/contest.c:51-75 | a printed time with an offset is its UTC value minus the offset, refused exactly when that is negative |

## Left out

- Sockets, epoll, eventfd, signalfd, threads: only their effects are modelled (bytes delivered, readiness, counter, join).
- SQL text, result binding, the branches of the request handlers: a handler completes or submits one operation.
- Crypto, sessions and JSON web tokens: the code behind them is not part of this model.
- json_to_challenge, json_to_challenges, skip_json_value, parse_json_int: lenient readers that no route reaches.
- Lifetime.OnEvent: a failing accept, set_nonblocking, calloc or epoll_ctl in listen_handler frees the new connection at once and is not a step of its own.
- Lifetime.DrainOne: the memory of database tasks and password jobs, which the handlers free, is not tracked.
- Lifetime.Apply: the password worker is always present; without one destroy_server skips its part.
- ServerHeap.Server.HandleCompletions: handlers submit further operations a finite number of times, so that the loop ends.
- SendBuffer.Response.Send: the writes are a finite list; when it ends the socket blocks.
- PasswordWorker.Submit: the checks of password and hash in front of the critical section are left out, and so is the clearing of secrets.
- HttpReceive.ParseHttpRequest: a finite list of receive results; the loop that retries while nothing has arrived ends with the list.
- HttpRequest.Request.ParseMethod: the 64-bit number is read little-endian, as on the target machine.
- JsonChallenge.ChallengeToJson: ids down to -INT_MAX; int_string_length negates the id, which overflows for the least int.
- JsonChallenge.ChallengesToJson: at least one challenge, as its callers guarantee.
- Score.CalculateUserScores: user ids are unique and challenge ids at least 1, as the repository guarantees.
- Score.Qsort: what the C library does inside is not modelled; callers rely on a sorted permutation only.
- Contest.ContestTimeParse: the text ends in front of its first NUL.
- Logging, error messages and response bodies.
- The Aurelia client, the mock server, the end-to-end harness, Docker and style sheets.
