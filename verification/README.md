# Ryze: a verified model

Ryze is a small runtime built around three things: a pool of worker threads that run queued requests and
hand them back to an event loop, an HTTP/1.x parser that works inside the buffer it is given, and the
intrusive lists that carry everything. This project models the logic of those parts, of two other task
runners in the same repository, and of two algorithms (path normalisation and sorting), and proves what
they are for. `dafny verify dfyconfig.toml` checks all of it.

How the parts are modelled:

* **Worker pool** (`worker_pool.dfy`, `ev_loop.dfy`). A state machine whose steps are single statements
  of `ev_work`, `EV_REQ_ADD` and the reading loop: any number of workers and submitters, two mutexes,
  blocked and woken workers, spurious wake-ups, an eventfd counter and its edge. The closed run of
  `xxx/main22.c`, whose workers return when nothing is pending, is the same machine with one branch
  changed. The class `Loop` holds the fields of `struct ev_loop`; each of its methods is one critical
  section, ends in the state that a run of the machine's steps reaches, and so keeps its invariant.
* **HTTP parser** (`hex.dfy`, `http_scan.dfy`, `memory.dfy`, `chunked*.dfy`, `request_line.dfy`,
  `headers*.dfy`, `header_parser.dfy`, `request.dfy`). The loops run over an array and move bytes inside it.
  Each is proved against a function of the bytes it was given, and the round trips and cut laws are
  proved about those functions. A pointer is a position in the array. A scan that would leave the buffer
  is an outcome of the function (`Overrun`), and the methods require exactly that it does not occur.
* **Intrusive list** (`intrusive_list.dfy`). Heap nodes with `next` and `prev`. `Ring(head, s)` ties the
  links to a sequence; every operation turns one ring into another and its `modifies` clause names every node
  it touches.
* **Lock-free claiming** (`lock_free_claim.dfy`, `lock_free_walks.dfy`,
  `lock_free_runs.dfy`). A state machine of `thread_func` and the walk of
  `process_task`, one shared access a step. Nodes are numbered in list order, 0 being the head.
* **Per-thread queues** (`task_queue.dfy`, `thread_pool.dfy`, `thread_object.dfy`,
  `thread_shutdown.dfy`). The chain on the heap as a
  class, a state machine of the worker, the adding threads and the destroying thread, and the chain in step
  with the machine's queue.
* **Path normalisation** (`normalize_path.dfy`, `path_laws.dfy`) and **bubble sort** (`bubble_sort.dfy`). The loops, proved
  against functions, with laws about those functions.

Where the code departs from what it stands for, the model keeps the code and states exactly when the two
agree: chunk sizes against section 4.1 of RFC 7230 (`Hex.AgreesWithRfcIffPalindrome`), folded lines
(`HeadersLaws.FoldReadAloneIffColon`), all-blank values (`HeadersLaws.NegativeIffAllBlank`), resuming a
chunked stream (`ChunkedLaws.ResumeUnlessLoneCR`), paths that climb above the root
(`NormalizePath.ReferenceIff`), paths resolved against a result (`PathLaws.RelativeLawIff`), results
normalised again (`PathLaws.StableIff`), tasks whose result was never initialised
(`LockFreeRuns.ExitMeansClaimedIffClean`, `LockFreeRuns.UnlinkedMeansExecutedIffSafe`) and a worker that locks
the mutex it holds (`ThreadPool.WedgesIff`). Each comes with a lemma at an input where the two differ.

## Model

| member | source | states |
|---|---|---|
| WorkerPool.StepInv | src/ev/ev.c:23-42 | every statement of every thread keeps the whole invariant: mutex ownership, the waiting count, conservation, order and the eventfd account |
| WorkerPool.InitInv | src/ev/ev.c:54-65 | the state `ev_loop_init` leaves, and the closed run's with its requests queued, satisfy the invariant |
| WorkerPool.NoLostWakeup | src/ev/ev.c:24-35 | in every reachable state with the pending mutex free and a request pending, a blocked worker implies a woken one; the workers are never all blocked |
| WorkerPool.WaitThreadsExact | src/ev/ev.c:25-29 | `wait_threads` is the number of workers between its two updates, never negative, and positive while one is blocked, so the guard never skips a needed signal |
| WorkerPool.BlockedMayWake | src/ev/ev.c:27 | any blocked worker can wake up spuriously, in one step from any state, and any of them can be the one a signal releases |
| WorkerPool.ExactlyOnce | src/ev/ev.c:30-41 | a submitted request is in exactly one of pending, one worker's hands, done or destroyed; `work` ran on it at most once, exactly once if it is completed, and not while it is pending |
| WorkerPool.PickUpOrder | src/ev/ev.c:30-31 | requests are taken in submission order, and with one worker they complete in it |
| WorkerPool.NoLostCompletion | xxx/main22.c:56-69 | when the main loop waits, the done mutex is free and something is done, the eventfd is positive and an edge is due; values read plus the counter equal the completions |
| WorkerPool.StepMeasure | src/ev/ev.c:23-42 | every step of a worker or of the main loop lowers a measure, chain signals included |
| WorkerPool.InternalRunsEnd | src/ev/ev.c:23-42 | without submissions and spurious wake-ups a run of any interleaving has at most as many steps as the measure falls |
| WorkerPool.RunsComplete | src/ev/ev.c:23-42 | where nothing internal can move, nothing is pending or done, all workers are blocked (returned in the closed run), and each submitted request ran once and was destroyed once |
| WorkerPool.ClosedRunExecutesAll | xxx/main22.c:152-182 | once all workers have returned, each queued request ran exactly once and is on the done list or destroyed, exactly once |
| EvLoopObject.Loop.constructor | src/ev/ev.c:46-67 | the new object is an initial state of the machine |
| EvLoopObject.Loop.EvReqAdd | src/ev/ev.h:16-22 | the whole new state: the request behind the others, a worker woken only when `wait_threads` is positive, all else unchanged; the machine's invariant is kept |
| EvLoopObject.Loop.EvWorkFirst | src/ev/ev.c:24-35 | the whole new state: with nothing pending the worker is counted and waits; else the first request is taken and a worker woken only when work remains and one waits; the invariant is kept |
| EvLoopObject.Loop.EvWorkComplete | src/ev/ev.c:38-41 | the whole new state: the request behind the done ones, the eventfd up by one and its edge set; the invariant is kept |
| EvLoopObject.Loop.ProcessWork | xxx/main22.c:74-89 | the whole new state: every done request destroyed, in order; the invariant is kept |
| EvLoopObject.AddIsRun | src/ev/ev.h:16-22 | the section of `EV_REQ_ADD` is four steps of the machine |
| EvLoopObject.FirstIsRun | src/ev/ev.c:24-35 | the first section of `ev_work`, entered at the lock or from a wake-up and left by a wait or with a request, is a run of the machine |
| EvLoopObject.CompleteIsRun | src/ev/ev.c:38-41 | the second section of `ev_work` is four steps of the machine |
| EvLoopObject.DrainIsRun | xxx/main22.c:74-89 | the drain is a run of the machine, two steps and one for each request |
| Hex.StrParseHex | server/http_parser.c:14-35 | 0 exactly on hex digits, with the sum of digit k times 16^k, for every string whose `int` shifts fit |
| Hex.DigitsAreThese | server/http_parser.c:22-30 | the digits are the characters of `0123456789abcdef` and `0123456789ABCDEF` and no others, each worth its place there |
| Hex.CaseDoesNotMatter | server/http_parser.c:24-28 | a digit string and its upper-case spelling have the same value, and the shift is defined for both or neither |
| Hex.ShiftsFitIff | server/http_parser.c:31-32 | the shifts are defined exactly when every digit read stands before the ninth place and stays below the sign bit |
| Hex.PrintThenParse | server/http_parser.c:14-35 | printing a size least significant digit first is undone by parsing, and below 2^31 never overflows the shift |
| Hex.LsdBelow | server/http_parser.c:20-33 | the value is below 16 to the number of digits |
| Hex.LsdInjective | server/http_parser.c:20-33 | strings of one length have one value only if all their digits agree |
| Hex.AgreesWithRfcIffPalindrome | server/http_parser.c:20-33 | the value is the most-significant-first one exactly when the digit values form a palindrome |
| Hex.TwoDigitsReversed | server/http_parser.c:20-33 | `01` is read as 16 where the standard order gives 1 |
| Memory.MemMove | server/http_parser.c:173 | a move inside one buffer, overlapping or not: the bytes arrive and nothing else changes |
| Chunked.HttpParseChunked | server/http_parser.c:155-192 | return value, body and `read_len` are those of the bytes given; the body is in place, ends at or before `read_len`, and every byte outside it is untouched |
| ChunkedLaws.DecodeShift | server/http_parser.c:163-190 | decoding depends only on the bytes from the current size line on |
| ChunkedLaws.DecodeCutFinal | server/http_parser.c:163-191 | a prefix that failed or ended decides the whole stream |
| ChunkedLaws.DecodeCutResume | server/http_parser.c:163-191 | a longer input gives the prefix's body followed by what decoding finds from where it stopped |
| ChunkedLaws.ResumeUnlessLoneCR | server/http_parser.c:155-192 | for any input and any unfinished prefix, decoding afresh from `read_len` agrees with one decoding of the whole exactly when `read_len` is not at a CR with no further CR behind it |
| ChunkedLaws.LoneCRSplits | server/http_parser.c:155-192 | a chunk followed by a CR, cut in front of that CR: 0 for the whole, -1 for the resumed decoding |
| ChunkedLaws.CutAnywhere | server/http_parser.c:155-192 | a complete stream cut at any byte: both parts decode without error, bodies and lengths add up to those of one decoding |
| ChunkedLaws.CutInPlace | server/http_parser.c:155-192 | the same for two calls inside one buffer, the second on what the first left behind |
| ChunkedLaws.RoundTrip | server/http_parser.c:160-191 | for all non-empty chunks, with or without an extension, a zero chunk and any bytes after: 0, the concatenated payloads, and `read_len` just past the zero-size line |
| ChunkedLaws.Spellable | server/http_parser.c:14-35 | every payload below 2^31 bytes, with any extension, has chunks in lower and in upper case that the round trip covers |
| ChunkedVerdicts.OutcomeIff | server/http_parser.c:155-192 | every outcome of every input, over the bytes: the decoder returns it exactly when it arrives, over complete chunks whose payloads are the body, at a line on which it stops with it |
| ChunkedVerdicts.UndefinedIff | server/http_parser.c:20-33 | the arithmetic is undefined exactly when it arrives at a complete size line whose leading hex digits do not fit the shift |
| ChunkedVerdicts.WrongSizeReported | server/http_parser.c:164-188 | behind any good chunks an empty size, or one that is not all hex and whose digits fit, gives -1, the chunks' bodies and the position of that line; only an empty size behind a chunk with no further CR gives 0 |
| ChunkedVerdicts.LettersRejected | server/http_parser.c:29-30 | `xyz` and a line end gives -1 |
| HttpScan.FindLineIff | server/http_parser.c:52-57 | a line end is an LF behind an odd run of CRs; without one, the cursor steps past the end exactly when the data end in an odd run of CRs |
| RequestLine.HttpParseRequestLine | server/http_parser.c:37-77 | verdict and outputs for every buffer whose scan does not step past the end on a final CR |
| RequestLine.LineJudged | server/http_parser.c:58-75 | a line with two spaces and a line end gets 0 exactly when ` HTTP/1.`, one byte and CRLF stand behind the second space, else -1 |
| RequestLine.ParsePrinted | server/http_parser.c:58-75 | any space-free method and path and any minor byte but CR come back, whatever follows the line |
| RequestLine.ParsedIsPrinted | server/http_parser.c:58-75 | a verdict of 0 means the buffer starts with the line printed from the fields returned |
| RequestLine.VerdictStands | server/http_parser.c:37-77 | a verdict of 0 or -1 and all outputs are unchanged by any bytes appended |
| RequestLine.PrefixIncomplete | server/http_parser.c:37-77 | every proper prefix of a request line gives 1, except that one ending in CR may step past the end |
| RequestLine.OverrunIff | server/http_parser.c:44-57 | the scan steps past the end exactly when there are two spaces and the text from the second on has no line end and ends in an odd run of CRs |
| RequestLine.FinalCROverruns | server/http_parser.c:52-57 | `G / ` and a CR is such a buffer |
| HeaderParser.ScanLine | server/http_parser.c:89-107 | the first ':' of a line, the line end behind it, and whether all before the ':' are token characters |
| HeaderParser.ValueSpan | server/http_parser.c:115-124 | the value from its first to its last non-blank, its length signed |
| HeaderParser.RecordLine | server/http_parser.c:108-136 | one line adds a header, extends the last value or is passed over, and all spans stay ordered and disjoint |
| HeaderParser.LaidFold | server/http_parser.c:127-135 | moving a fold behind the last value gives its text followed by the fold's content and disturbs no other span |
| HeaderParser.LineFolded | server/http_parser.c:127-138 | a fold is written at or before where it stood, so neither its CR nor any byte behind it is rewritten |
| HeaderParser.HttpParseHeader | server/http_parser.c:79-153 | verdict, `read_len` and fields are those of the bytes given; spans are ordered, disjoint, inside `read_len`; nothing behind `read_len` is rewritten |
| HeaderParser.ReturnedIff | server/http_parser.c:119-134 | the bytes at `value`, `value_len` of them, are the whole text exactly when the value was not blanks only; else its first bytes are missing, one for each blank, or the length is negative |
| HeadersLaws.HeaderReads | server/http_parser.c:89-126 | a printed header with blanks around its value gives its name and its trimmed value |
| HeadersLaws.TokensAreThese | server/http_parser.c:4-12 | the token characters are the visible ones less the delimiters of section 3.2.6 of RFC 7230 |
| HeadersLaws.BlanksAreThese | server/http_parser.c:110-121 | space and tab, and nothing else, are blank |
| HeadersLaws.UserAgentKept | server/http_parser.c:91-126 | `User-Agent` with a tab before its value and a blank behind it is kept, with the value trimmed |
| HeadersLaws.FoldReads | server/http_parser.c:89-107 | a printed continuation with a ':' is read as one line, with its content after the first blank |
| HeadersLaws.GatherWritten | server/http_parser.c:108-136 | one written line yields exactly what it spells: a header with or without room for it, a continuation, or a line whose name is not a token and which is passed over |
| HeadersLaws.RoundTrip | server/http_parser.c:79-153 | any printed lines, an empty line and any body give 0, the fields spelled in the room there is with all continuations appended, and the length of the block |
| HeadersLaws.BlockUnfinished | server/http_parser.c:137-152 | without the empty line, or with only its CR, the same fields come with the verdict 1 |
| HeadersLaws.VerdictMeans | server/http_parser.c:137-152 | 0 means that an empty line ends the block at `read_len`, 1 that the data ended there, with at most a CR left |
| HeadersLaws.SpelledCount | server/http_parser.c:111-125 | there are as many fields as header lines, up to `max_header`, however many are folded |
| HeadersLaws.SpelledFull | server/http_parser.c:111-135 | without room every header is passed over, and all continuations, its own included, go to the last header kept |
| HeadersLaws.BeyondRoom | server/http_parser.c:111-135 | where the room runs out the fields stand, except that the last text grows by every later continuation |
| HeadersLaws.LateFoldMisplaced | server/http_parser.c:111-135 | with room for one header, `a:b`, `c:d` and a continuation `x:y` give `a` the value `bx:y` |
| HeadersLaws.SpelledHeads | server/http_parser.c:111-136 | each field keeps the name of its header line and the number of blanks of a blank value, whatever is folded onto it |
| HeadersLaws.FoldReadAloneIffColon | server/http_parser.c:91-101 | a continuation ends at its own line end exactly when it contains a ':' |
| HeadersLaws.FoldSwallowsLine | server/http_parser.c:91-107 | a continuation `x` without a ':' is read as one line together with the header behind it |
| HeadersLaws.NegativeIffAllBlank | server/http_parser.c:115-124 | the value length is negative exactly when the value is written as blanks only |
| HeadersLaws.OneBlankNegative | server/http_parser.c:115-124 | `a: ` gives the length -1 |
| HeadersLaws.NoLineIff | server/http_parser.c:91-107 | no line can be read exactly when there is no ':' or no line end behind the first one |
| HeadersLaws.BlockOverrunIff | server/http_parser.c:88-107 | a block is read beyond its end exactly when the parser comes to a line it cannot read |
| HeadersLaws.UnfinishedOverruns | server/http_parser.c:91-107 | a block without a ':', or without a line end, is read beyond its end |
| Request.HttpParseRequest | server/test.c:6-26 | accepts exactly when both parsers return 0; the outputs point at the parts, and `read_len + body_len == data_len` |
| Request.PrintParses | server/test.c:12-18 | a printed request gives the two parsers' full results |
| Request.PrintedScannable | server/test.c:6-26 | no scan of a printed request leaves the buffer |
| Request.RequestRoundTrip | server/test.c:6-26 | printing any request and parsing it gives back method, path, minor version, the body and the first `max_header` header names; the returned value is the written one with its continuations exactly for headers whose value is not blanks only |
| Request.BlankValueLosesBytes | server/http_parser.c:115-135 | a header of two blanks with `x:y` folded onto it is returned as `y` |
| IntrusiveList.LinksInverse | list.h:18-34 | `next` and `prev` are inverses all around the ring |
| IntrusiveList.RingUnique | list.h:18-34 | the links determine the sequence |
| IntrusiveList.ListInit | list.h:23-26 | an initialised head is the empty ring |
| IntrusiveList.ListAdd | list.h:36-38 | the node comes first, touching the head and the former first node only |
| IntrusiveList.ListAddTail | list.h:40-42 | the node comes last, touching the head and the former last node only |
| IntrusiveList.ListDel | list.h:44-53 | any member leaves the sequence at its position, with both links null, touching its two neighbours only |
| IntrusiveList.BypassedRing | list.h:44-47 | relinking the two neighbours of a node yields the ring without it |
| IntrusiveList.ListEmpty | list.h:55-57 | true exactly for the empty ring |
| IntrusiveList.ListRemove | list.h:59-66 | the first node and the rest, or null on the empty ring |
| IntrusiveList.ListRemoveTail | list.h:68-75 | the last node and the rest, or null on the empty ring |
| IntrusiveList.Drain | main.cc:195-210 | the loop that unlinks while walking visits every node once, in order, and leaves an empty ring |
| IntrusiveList.ForEach | list.h:15-16 | the traversal visits every node once, in order, and stops at the head |
| IntrusiveList.MacroInit | server/list.h:9-11 | an initialised head is the empty ring |
| IntrusiveList.MacroAdd | server/list.h:13-17 | the macro's order of assignments gives the same ring as `list_add` |
| IntrusiveList.MacroAddTail | server/list.h:19-23 | the macro's order of assignments gives the same ring as `list_add_tail` |
| IntrusiveList.MacroDel | server/list.h:25-29 | the macro's order of assignments gives the same ring as `list_del` |
| IntrusiveList.MacroNotEmpty | server/list.h:31-33 | true exactly when the ring has a node |
| IntrusiveList.MoveFirst | src/ev/ev.c:30-39 | taking the front of one list and appending it to another shortens the first and extends the second, each otherwise as it was |
| LockFreeClaim.StepBase | xxx/main-bak.c:57-100 | every step of a worker or of the reaper keeps links forward over unlinked nodes only, claims exclusive, and events accounted for |
| LockFreeClaim.CutChain | xxx/main-bak.c:82-86 | unlinking a node behind a live one leaves links that go forwards, skip unlinked nodes only and lead from live nodes to live ones |
| LockFreeClaim.LiveReached | xxx/main-bak.c:71 | along such links every node still on the list is reached from every earlier node, unlinked or not |
| LockFreeClaim.CursorFollowsList | xxx/main-bak.c:59-71 | a worker moves from the head or its task to the nearest node behind it that is still on the list, over unlinked nodes only |
| LockFreeClaim.AtMostOnce | xxx/main-bak.c:65-67 | a task starts and is unlinked at most once; one queued with a NULL result is unlinked only after its function returned something, whatever the results of the others |
| LockFreeClaim.NeverTogether | xxx/main-bak.c:65-67 | two workers are never inside the function of the same task |
| LockFreeClaim.NoResultMissed | xxx/main-bak.c:76-100 | values read plus the counter are the posts, and with the eventfd at zero every posted result is marked |
| LockFreeWalks.WalkUnlinks | xxx/main-bak.c:76-100 | over a whole walk, whatever the workers do meanwhile: a task is taken off the list exactly when it was marked before the walk and the nearest node left in front of it is the head or marked |
| LockFreeWalks.WalkEmpties | xxx/main-bak.c:76-100 | a walk that begins with every task on the list marked leaves the list empty |
| LockFreeClaim.UnclaimedAhead | xxx/main-bak.c:57-74 | an unclaimed task can be reached by the links from every worker's cursor, and no worker has exited |
| LockFreeClaim.ExitedClaimsAll | xxx/main-bak.c:61-72 | once any worker has reached the end, every task has been claimed |
| LockFreeClaim.AllExitedAllDone | xxx/main-bak.c:57-74 | when all workers have exited, every task ran exactly once and was posted |
| LockFreeClaim.WaitFree | xxx/main-bak.c:61-72 | in every run a worker takes at most four statements a node, whatever the others do, and is never stuck before its end |
| LockFreeRuns.EarlyResultHidesTask | xxx/main-bak.c:39-50 | if a task beyond the second is queued with a result already set, there is a run in which a worker reaches the end and the task is unlinked, never claimed |
| LockFreeRuns.ThreeTasksOneWorker | xxx/main-bak.c:39-50 | that run for three tasks and one worker, only the third task queued with a result |
| LockFreeRuns.ExitMeansClaimedIffClean | xxx/main-bak.c:39-100 | "an exited worker means every task is claimed" holds over all runs exactly when the tasks from the third on are queued with a NULL result |
| LockFreeRuns.UnlinkedWhileRunning | xxx/main-bak.c:82-92 | with two workers and three tasks or more, a result set on the first or second has a run in which that task is unlinked while a worker is inside its function |
| LockFreeRuns.ThreeTasksTwoWorkers | xxx/main-bak.c:82-92 | that run for three tasks and two workers, only the first task queued with a result |
| LockFreeRuns.UnlinkedMeansExecutedIffSafe | xxx/main-bak.c:57-100 | "only executed tasks are unlinked" holds over all runs exactly when no result is set from the third task on, and none on the first two unless there is one worker or no third task |
| LockFreeRuns.StaleCursor | xxx/main-bak.c:71-92 | with two tasks or more and one worker, whatever the results were, there is a run in which the worker is about to read the link of a task that was unlinked |
| LockFreeRuns.NeverStaleIff | xxx/main-bak.c:61-100 | no run puts a worker on an unlinked task exactly when there is at most one task |
| TaskQueue.ThreadInfo.Add | ev_thread_pool.cc:111-124 | the queue grows by one task at its end |
| TaskQueue.ThreadInfo.Take | ev_thread_pool.cc:147-153 | the first task leaves and the rest is the queue |
| TaskQueue.ThreadInfo.Destroy | ev_thread_pool.cc:75-83 | every queued task is freed, in order, the queue is empty and `status` is one higher |
| ThreadObject.LinkStep | ev_thread_pool.cc:118-124 | the chain goes through the machine's link step |
| ThreadObject.TakeStep | ev_thread_pool.cc:147-153 | the chain goes through the machine's dequeue, and the node taken is the task the machine runs next |
| ThreadObject.EndStep | ev_thread_pool.cc:137-141 | the test for an empty queue leaves the loop, and raises `status`, exactly when the machine does |
| ThreadObject.ClearStep | ev_thread_pool.cc:75-83 | the chain goes through the machine's clearing, and the nodes freed are the tasks it records as freed |
| ThreadPool.LeavesOnce | ev_thread_pool.cc:109-162 | every added task is still queued or left exactly once, dequeued or freed, in the order added; the worker runs what it dequeued, in that order |
| ThreadPool.OneInside | ev_thread_pool.cc:132-154 | no two of worker, adders and destroyer are ever between lock and unlock together |
| ThreadPool.StatusRises | ev_thread_pool.cc:75-142 | over any run `status` never falls and stays between 0 and 2, and it is 2 exactly when the queue was cleared and the worker has left its loop |
| ThreadPool.TwoIsFinal | ev_thread_pool.cc:93-99 | from `status` 2 on nothing is dequeued, run or freed, in any run |
| ThreadPool.NothingLeftBehind | ev_thread_pool.cc:68-88 | if nobody adds once the destroyer holds the mutex, every task ever added was dequeued or freed, and the queue stays empty |
| ThreadShutdown.ReleasableIff | ev_thread_pool.cc:68-142 | from a reachable state some run without spurious wake-ups ends the destroying call for this thread exactly when the worker neither holds the mutex it is about to lock nor is back from a wait with nothing queued and `status` 0 |
| ThreadShutdown.LostForever | ev_thread_pool.cc:134-139 | from such a state no run clears this thread's queue, let alone releases it |
| ThreadShutdown.TwoEndsSoon | ev_thread_pool.cc:89-106 | once `status` is 2 at most ten statements release the thread |
| ThreadShutdown.WholeLife | ev_thread_pool.cc:68-162 | any tasks, added by any callers, can all be dequeued or freed by a run that releases the thread |
| ThreadShutdown.FirstSignalEnds | ev_thread_pool.cc:74-105 | a worker that waits with nothing queued is ended by the call's first signal, in ten statements |
| ThreadPool.WedgesIff | ev_thread_pool.cc:109-142 | without spurious wake-ups, some run from the initial state makes the worker lock the mutex it holds exactly when somebody can add |
| ThreadPool.SpuriousWedges | ev_thread_pool.cc:134-139 | one spurious wake-up does it in every pool, before any task is added |
| ThreadPool.WedgedForever | ev_thread_pool.cc:137-139 | from then on nothing is queued, dequeued or freed in any run, and a destroying call never gets past this thread |
| ThreadPool.LateSignalWedges | ev_thread_pool.cc:125-139 | there is such a run without any spurious wake-up: the task is taken before its adder signals |
| NormalizePath.NormalizePath | main.cc:234-266 | the loops compute the rendering of the evaluated segments, for every path and directory |
| NormalizePath.SegmentsConcat | main.cc:244 | a slash separates: the segments of the two sides follow each other |
| NormalizePath.JoinSplit | main.cc:244-258 | joining undoes splitting |
| NormalizePath.SplitJoin | main.cc:244-258 | splitting undoes joining |
| NormalizePath.StackPlain | main.cc:245-251 | nothing the result is joined from is `.` or `..` or contains a slash |
| NormalizePath.StackIsResolved | main.cc:245-251 | pushing and popping computes what cancelling from right to left computes, without a stack |
| NormalizePath.RootedStack | main.cc:245-251 | `..` at the root pops the root's own empty segment, for good |
| NormalizePath.DepthCounts | main.cc:245-251 | a counter that `..` lowers and that stops at 0 counts what is left |
| PathLaws.ReferenceIff | main.cc:234-266 | an absolute path without empty segments, with or without a final slash, the root included, equals the reference exactly when it does not both climb above the root and end two levels deep or more |
| PathLaws.StableIff | main.cc:234-266 | for every such path, normalising the result again, in any directory, changes nothing exactly under the same condition |
| PathLaws.RelativeLawIff | main.cc:234-266 | for every such path `p`, normalising every relative `q` against its result is normalising `p/q` exactly when `p` ends one level deep or more, two if it climbs; with a final slash, exactly when it leads to the root without climbing |
| PathLaws.CleanPath | main.cc:234-266 | such a path that never climbs above the root: equal to the reference, no `.` or `..`, stable; usable as a base below the root, and at the root exactly with a final slash |
| PathLaws.StackIsKept | main.cc:241-252 | for every text, what the loop leaves is what cancelling its names from right to left leaves, with the root in front of an absolute one unless it climbs |
| PathLaws.LeftIs | main.cc:245-251 | the name left at depth `k` is the one pushed at that depth behind which the counter never falls back to it |
| PathLaws.LeftExists | main.cc:245-251 | at every depth below the final one there is such a name |
| PathLaws.AnyStableIff | main.cc:234-266 | for every path and directory, empty segments included, a condition on three things read off the text: the final depth, whether it climbs, and whether the first and last names left are empty |
| PathLaws.AnyRelativeLawIff | main.cc:234-266 | for every path and directory, the same for the relative law: the final depth, whether it climbs, a final slash, and whether the first name left is empty |
| PathLaws.ClimbingPath | main.cc:253-264 | `/../a/b` comes out as `a/b`: not the reference, and not stable |
| PathLaws.ClimbingBase | main.cc:234-266 | `b` against the result for `/../a` gives `/a/b`, while `/../a/b` gives `a/b` |
| BubbleSort.Sort | js/utils.js:1-11 | the array ends as the stable reference says, after exactly one swap for each inversion it started with |
| BubbleSort.SwapKeepsReference | js/utils.js:4-8 | exchanging two neighbours in the wrong order does not change the reference's result |
| BubbleSort.SwapRemovesOne | js/utils.js:4-8 | it removes exactly one inversion |
| BubbleSort.StableSortIs | js/utils.js:1-11 | the reference is sorted, a permutation, and keeps the order of elements that compare equal |
| BubbleSort.StableSortUnique | js/utils.js:1-11 | these properties determine the result |
| BubbleSort.ByKey | js/utils.js:4 | comparing by a key, with ties, is an order the theorems cover |

## Left out

- V8 bindings, `shell.cc`, the module loader of `main.cc` around `NormalizePath`, and the test programs: they call libraries whose code is not part of this model.
- Sockets, epoll and file calls: only an eventfd counter and its edge are kept. The eventfd's saturation at 2^64 - 2 and the 3 second epoll timeout that ends the main loops of `xxx/main22.c` and `xxx/main-bak.c` are not modelled.
- Buffers and chunk sizes of 2^31 bytes or more, where `int` differences and lengths would be truncated; positions and lengths are unbounded here.
- Bytes are Dafny characters; the minor version is their plain difference from `'0'`.
- StrParseHex: requires that the shifts fit a 32-bit `int`; what a larger digit or a ninth one gives is undefined in C.
- HttpParseHeader: the `size_t` length of an all-blank value is kept as the negative number the parser computes. The branch that returns -1 is never reached, because the scan before it only ends at a line end.
- Both parsers' scans have no end check in places; buffers on which a scan would leave the buffer are excluded by the methods' preconditions (`Overrun`). `RequestLine.OverrunIff` and `HeadersLaws.NoLineIff` say which they are.
- HttpParseRequest: the two `assert` statements become the result `ok`; after a failed one nothing is said about the outputs.
- A return value of 0 from `http_parse_chunked` does not tell a complete stream from one that ended inside a size line; `Chunked.Ended` is the model's own account of it.
- Weak memory ordering, and memory reuse after `free`: steps are sequentially consistent, and unlinked tasks keep their fields. For the lock-free list this matters for every list of two tasks or more (`LockFreeRuns.NeverStaleIff`): there a worker can read the link of a task that was unlinked.
- Allocation failure, `sleep`, `rand` and printing.
- LockFreeClaim, LockFreeWalks and LockFreeRuns are modelled on values, as interleaved statements; the claim counter is unbounded, so a counter that wraps after 2^32 claims of one task is not covered.
- ev_thread_pool_init: threads that start before their mutex and queue fields are set are not modelled; nor is the signal a worker sends on a condition that has been destroyed after `status` 2.
- ReleasableIff: says that the call can end, not that it does; that needs a fair scheduler, which is not modelled.
- NothingLeftBehind: tasks added after the destroyer cleared the queue are not claimed to be dequeued or freed.
- Sort: comparisons must form a strict weak order; values such as NaN, for which JavaScript's `>` is not one, are excluded.
- server/main.c, whose write path uses names that are not in scope; epoll.cc and epoll2.cc, which repeat the queue and the list in a weaker form; src/http/http_parser.c, an earlier variant of the parser; src/util and server/pico.
