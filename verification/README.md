# A verified model of the inbound-task runtime

This project models the inbound half of the Hermes A2A plugin: the queue of inbound tasks and
the threads that share it, the request and call limiters, the server-sent-event streams, the
expiring stores, the paginated task list and the conversation log. `dafny verify dfyconfig.toml`
checks all of it.

Each component appears in up to three layers.

* **A value model.** One total function per lock-held body (`queue_model.dfy`,
  `rate_limiter_model.dfy`, `sse_model.dfy`, `idempotency_model.dfy`, `sliding_window.dfy`,
  `exchange_log.dfy`, `pagination.dfy`). Clock readings are arguments, so readings may reach a
  lock out of order wherever the program allows that. Insertion-ordered dictionaries are a key
  list and a map (`ordered_dict.dfy`).
* **The objects.** Classes with the program's fields, updated in place, with its loops
  (`task_queue.dfy`, `rate_limiter.dfy`, `sse_streamer.dfy`, `subscription_store.dfy`, and the
  classes in `sliding_window.dfy`, `idempotency_model.dfy` and `exchange_log.dfy`). Every method is
  proved to do to the object's abstract `State()` exactly what the value model's function does, so
  what is proved about the model holds of the objects.
* **Runs.** Theorems over every sequence of operations (`queue_runs.dfy`, `hooks_model.dfy`,
  `watchdog_model.dfy`, `rate_limiter_bounds.dfy`, `rate_limiter_retry.dfy`,
  `rate_limiter_sweep.dfy`, `rate_limiter_lru.dfy`, `sse_runs.dfy`, `sse_ids.dfy`,
  `sse_broadcasts.dfy`, `idempotent_requests.dfy`, `idempotency_history.dfy`), over every
  interleaving of threads (`task_runtime.dfy`, `task_answers.dfy`) and of two hook calls
  (`hooks_overlap.dfy`), and over every file content (`exchange_round_trip.dfy`,
  `exchange_files.dfy`, `exchange_reader.dfy`, `exchange_inbound.dfy`).

A task object is a handle: its index in the list of all task objects `enqueue` ever returned. Two
references to one object are one handle twice. A lock-held body returns the tasks whose event it
sets; `task_runtime.dfy` lets those `ready.set()` calls happen arbitrarily later, one by one, and
splits what is done without the lock (reading a response, writing one, setting the event, setting
`_returned`, each of the watchdog's two readings of the cached minimum, and the handler's two
readings of the response) into separate steps. What it
keeps in one piece is named under "Left out".

The limits `_MAX_PENDING` and `_TASK_CACHE_MAX` are parameters. They are equal in the program, so
its eviction loop never runs there; with other values it does, and the theorems cover it.

Where the code does not do what its names or comments suggest, the model follows the code and says
exactly when the intended property holds:

* a requeue of a task that was completed in the meantime puts it back as pending in a terminal
  state and leaves the cached minimum stale (`RequeueKeepsLifecycleIff`, `RequeueKeepsOldestIff`,
  `StaleRequeueBreaksLifecycle`, `StaleRequeueBreaksOldest`, `FastPathDiffersIff`);
* `enqueue` does not look at completed tasks (`UnguardedEnqueueIff`);
* a response that reads "(canceled)" is reported as a cancelation (`StatusIsRecordedStateIff`);
* the watchdog reads the cached minimum twice without the lock and dies if the queue was emptied in
  between (`WatchdogDiesIff`, `WatchdogCanDie`);
* two overlapping `pre_llm_call`s inject one task twice exactly when the second drains before the
  first marks and the task is still queued (`InjectTwiceIff`, `InjectTwiceIffBeforeMark`,
  `OverlappingCallsInjectTwice`);
* Retry-After is honest over every run of steady calls if and only if the capacity holds one token
  (`RetryAfterHonestIff`, `RetryAfterNeverSuffices`), and over every run whose readings are late by
  at most so much if and only if, besides, that lateness fits into what the wait has to spare
  (`RetryAfterHonestWhenLateIff`, `SlackInSeconds`, `LateReadingBreaksRetryAfter`);
* the bound on calls within a window survives late clock readings if and only if there is at most
  one slot (`BoundSurvivesIff`, `LateReadingBreaksBound`);
* a broadcast event is named by the first stream only, so ids can repeat within a stream: the next
  one repeats exactly when the stream already took the number that the count of broadcasts since
  the current first stream became first gives it (`BroadcastRepeatsIff`, `BroadcastRepeatsId`,
  `UniqueIdsIff`);
* requests with one idempotency key that overlap all start: only finished requests count
  (`OverlappingRequestsBothStart`); and since a request checks for a conflict and looks its key up
  under two locks, it is answered with the result of another payload exactly when that request
  finished in between (`AnsweredByHistory`, `OtherPayloadReplayedIff`, `OtherPayloadReplayed`);
* the log is read with newlines translated and written back that way, so a carriage return anywhere
  in a file is lost (`SaveAppendsIff`, `OutsideUnchangedIff`, `RoundTripIff`), and a reply goes
  astray if, as it is read, the header line or the outbound text holds a separator or the
  placeholder, or the text ends in a rule (`RecordedIff`, `CarriageReturnsCutEntry`,
  `TrailingRuleIsUnclean`).

## Model

| member | source | states |
|---|---|---|
| TaskRuntime.NoLostWaiter | hermes_agent_a2a/task_queue.py:124-226 | In every interleaving of enqueue, requeue, mark, complete, cancel, webhook failure, watchdog and handler timeout, each task `enqueue` returned is ready, or returned, or still stored under its id, or its event is about to be set; a ready task has a response |
| TaskRuntime.WatchdogLeavesNoOrphan | hermes_agent_a2a/server.py:141-154 | When a watchdog pass is over, the early `continue` included and its two unlocked readings apart, every task older than its cutoff that existed when it decided is ready, returned, or answered with the event about to be set, whatever ran in between |
| TaskRuntime.WatchdogAnswersOld | hermes_agent_a2a/server.py:149-152 | In every interleaving, a task the watchdog is about to answer is older than its cutoff |
| TaskRuntime.NextKeepsInv | hermes_agent_a2a/server.py:93-97 | Every single step of every actor keeps the invariant behind the two theorems above |
| TaskRuntime.ApplyKeepsNoneForgotten | hermes_agent_a2a/task_queue.py:124-220 | Every lock-held operation leaves each unanswered, unreturned task queued, and the cached minimum at most its age, even when requeue puts stale tasks back |
| TaskRuntime.WatchdogDiesIff | hermes_agent_a2a/server.py:146-148 | With an exact cached minimum, a pass dies at its second reading if and only if the queue is empty by then |
| TaskRuntime.WatchdogCanDie | hermes_agent_a2a/server.py:146-148 | From every state the invariant holds in with one pending task: a pass that starts, a completion of that task, and the pass going on kill the watchdog if and only if the cached minimum was that task's creation time |
| TaskRuntime.OneTaskPending | hermes_agent_a2a/task_queue.py:124-162 | Such states are reached, with the cached minimum that kills: after a first arrival |
| TaskRuntime.SkipCovers | hermes_agent_a2a/server.py:147-148 | The early exit is safe whatever was requeued: nobody below the cutoff is still waited for |
| TaskAnswers.HandlerRepliesLastAnswer | hermes_agent_a2a/server.py:730-740 | In every interleaving a handler gives up exactly when no step has answered its task, and otherwise hands its client the text of the last step that has when it collects: the completion's own text, "(canceled)", or the texts of an eviction, the watchdog or a failed webhook |
| TaskAnswers.ResponseIsLastAnswer | hermes_agent_a2a/task_queue.py:141-226 | The response on every task is the text of the last step that answered it, and none if no step has |
| TaskAnswers.CompletionIsReturned | hermes_agent_a2a/task_queue.py:182-192 | A completion's text reaches the client: unless the handler has given up, the watchdog or a callback has read the task unanswered and is about to write, or the task is put back later, nothing that runs replaces it |
| QueueRuns.FinishAnswersTask | hermes_agent_a2a/task_queue.py:182-217 | Completing a pending task leaves exactly the text given, ready, or the task as it was when its handler has returned; canceling leaves "(canceled)"; no other task changes |
| QueueRuns.FinishTables | hermes_agent_a2a/task_queue.py:182-220 | The task leaves the pending table and comes last among the completed ones, of which a completion, but not a cancel, keeps the latest up to the cap; its state is recorded and one counter goes up |
| QueueRuns.QueueConservation | hermes_agent_a2a/task_queue.py:119-155 | Over every run, any requeue included, enqueued minus completed minus canceled is the number of pending tasks, processing ids are pending, completed ids have a state; `pending_count` never clamps |
| QueueRuns.EvictDropsOldestIdle | hermes_agent_a2a/task_queue.py:139-155 | The eviction loop drops exactly the longest-queued idle tasks, as many as it takes to reach the cap, fewer only when all others are being processed |
| QueueRuns.EvictEffect | hermes_agent_a2a/task_queue.py:139-155 | An evicted task was pending and idle, is no longer pending and has the overflow answer; nothing else changes, and the counts add up |
| QueueRuns.EnqueueEffect | hermes_agent_a2a/task_queue.py:124-155 | A refused arrival changes nothing; an accepted one adds an unanswered task object with the id and time given, pending unless it is crowded out at once, and records its id as submitted; other task objects get at most the overflow answer |
| QueueRuns.CachedMinimumIsExact | hermes_agent_a2a/task_queue.py:133-149 | While requeue only receives tasks still queued, `_oldest_pending_time` is the minimum creation time over the pending tasks after every operation, None exactly when there are none |
| QueueRuns.RequeueKeepsOldestIff | hermes_agent_a2a/task_queue.py:169-175 | Requeue keeps the cached minimum exact if and only if no task it puts back is older than it |
| QueueRuns.RequeueOfPendingIsNoOp | hermes_agent_a2a/task_queue.py:169-175 | Requeue of tasks still queued changes nothing |
| QueueRuns.RequeueEffect | hermes_agent_a2a/task_queue.py:169-175 | What requeue puts back: for each free id the first task of the list with it, counted once |
| QueueRuns.StateMachineOverRuns | hermes_agent_a2a/task_queue.py:59-117 | Over every run of the calls server and hooks make, each state write follows an edge of `_TRANSITIONS` or is an admission, pending ids stay submitted or working, completed ones terminal |
| QueueRuns.EmptyQueueStarts | hermes_agent_a2a/task_queue.py:70-82 | A new queue meets the premises of the run theorems: conservation, exact cached minimum, life cycle |
| QueueRuns.TerminalIsFinal | hermes_agent_a2a/task_queue.py:182-220 | A terminal state never changes while its id stays in `_completed` |
| QueueRuns.FinishedOnce | hermes_agent_a2a/task_queue.py:182-220 | Completing or canceling an id a second time changes nothing: the first resolution stands |
| QueueRuns.StatusAfterFinish | hermes_agent_a2a/task_queue.py:182-242 | After a cancel `get_status` reports canceled; after a completion completed, unless the response is the literal cancel text |
| QueueRuns.UnguardedEnqueueIff | hermes_agent_a2a/server.py:698-704 | `enqueue` on a free slot keeps the state machine if and only if the id is not completed: the check before it and the enqueue are two critical sections |
| QueueRuns.RequeueKeepsLifecycleIff | hermes_agent_a2a/task_queue.py:169-175 | Requeue keeps the state machine if and only if what it puts back is submitted or working and not completed |
| QueueRuns.StaleRequeueBreaksLifecycle | hermes_agent_a2a/task_queue.py:164-206 | Drain, complete, requeue always leaves the task pending again in state completed |
| QueueRuns.StaleRequeueBreaksOldest | hermes_agent_a2a/task_queue.py:164-206 | ... and the cached minimum wrong whenever that task is the oldest |
| QueueRuns.StatusIsRecordedStateIff | hermes_agent_a2a/task_queue.py:228-242 | For a finished task `get_status` reports the recorded state if and only if its response is not the literal cancel text of another state |
| WatchdogModel.FastPathRefinesScan | hermes_agent_a2a/server.py:141-154 | With an exact cached minimum the early `continue` changes nothing the scan would have |
| WatchdogModel.FastPathDiffersIff | hermes_agent_a2a/server.py:141-154 | Fast path and scan differ if and only if the pass skips although some pending task is old and unanswered |
| WatchdogModel.ScanAnswers | hermes_agent_a2a/server.py:149-152 | The scan answers exactly the old unanswered tasks and touches nothing else |
| WatchdogModel.PassSettlesOld | hermes_agent_a2a/server.py:141-154 | After a pass every task neither ready nor returned is no older than the cutoff |
| HooksModel.PreLlmCallClaimsFirstIdle | hermes_agent_a2a/hooks.py:54-81 | `pre_llm_call` claims exactly the first idle pending task; its requeue leaves the queue unchanged |
| HooksModel.FifoSingleInjection | hermes_agent_a2a/hooks.py:54-81 | Over every run of arrivals, calls that inject or raise, completions and cancels, tasks are injected in acceptance order, none twice |
| HooksModel.NothingIdle | hermes_agent_a2a/task_queue.py:70-82 | A new queue meets the premise of the theorem above |
| HooksModel.NextCallFindsTheRest | hermes_agent_a2a/hooks.py:54-81 | After a call the next drain finds exactly the rest of the idle tasks |
| HooksModel.AcceptedReadsSubmitted | hermes_agent_a2a/task_queue.py:124-132 | An accepted id reads submitted, unless it was crowded out at once and had been used before |
| HooksModel.ClaimedReadsWorking | hermes_agent_a2a/hooks.py:54-81 | After `pre_llm_call` the id it claims reads working, and every other id reads as before |
| HooksOverlap.FourStepsAreTheCall | hermes_agent_a2a/hooks.py:54-81 | The four locked steps of a call, uninterrupted, are the atomic call |
| HooksOverlap.InjectTwiceIff | hermes_agent_a2a/hooks.py:54-81 | Over every interleaving of two calls with arrivals, evictions, completions, cancels and transitions: both inject the same task if and only if one was idle at the first drain, the second drain came before the first mark, and that task was still queued then |
| HooksOverlap.InjectTwiceIffBeforeMark | hermes_agent_a2a/hooks.py:54-81 | With arrivals only and a cap that evicts nobody, the schedule alone decides: an idle task, and the second drain before the mark |
| HooksOverlap.OverlappingCallsInjectTwice | hermes_agent_a2a/hooks.py:54-68 | Two calls that both drain before either goes on both return the first idle task, whenever there is one |
| TaskQueues.TaskQueue.Enqueue | hermes_agent_a2a/task_queue.py:124-162 | The object's state becomes the model's, evictions included; a fresh task object is returned exactly when there is room and the id is free |
| TaskQueues.TaskQueue.EvictOverflow | hermes_agent_a2a/task_queue.py:139-155 | The nested eviction loop terminates and does what the model's eviction does, returning the number evicted |
| TaskQueues.TaskQueue.MinPending | hermes_agent_a2a/task_queue.py:196-198 | The recomputed minimum is the minimum creation time over the pending tasks |
| TaskQueues.TaskQueue.DrainPending | hermes_agent_a2a/task_queue.py:164-167 | Returns the idle, not excluded task objects in order and changes nothing |
| TaskQueues.TaskQueue.RequeueTasks | hermes_agent_a2a/task_queue.py:169-175 | The loop does what the model's requeue does |
| TaskQueues.TaskQueue.MarkProcessing | hermes_agent_a2a/task_queue.py:177-180 | The processing set gains the id if it is pending; nothing else changes |
| TaskQueues.TaskQueue.Transition | hermes_agent_a2a/task_queue.py:94-117 | A write along an edge of the state machine, refused otherwise, with the error code -38003 if asked for |
| TaskQueues.TaskQueue.Complete | hermes_agent_a2a/task_queue.py:182-206 | The object's state becomes the model's: response unless returned, tables, counters, trim, cached minimum |
| TaskQueues.TaskQueue.TrimCompleted | hermes_agent_a2a/task_queue.py:199-200 | The trim loop drops the oldest completed entries down to the cap |
| TaskQueues.TaskQueue.Cancel | hermes_agent_a2a/task_queue.py:208-226 | As for `complete`, with the cancel text and without a trim |
| TaskQueues.TaskQueue.PendingCount | hermes_agent_a2a/task_queue.py:119-122 | The clamped difference of the counters; under conservation, the number of pending tasks |
| TaskQueues.TaskQueue.FindTaskById | hermes_agent_a2a/task_queue.py:263-269 | Finds a pending task before a completed one, and none exactly when the id is in neither |
| TaskQueues.TaskQueue.GetStatus | hermes_agent_a2a/task_queue.py:228-242 | The status the model reports, and the filtered response of a completed task without a state, which conservation rules out |
| TaskQueues.TaskQueue.Snapshot | hermes_agent_a2a/task_queue.py:271-281 | Every task object of both tables, the pending ones first, each with its creation time and recorded state: the rows of the model's snapshot |
| TaskQueues.TaskQueue.Collect | hermes_agent_a2a/server.py:732-736 | The end of a handler's wait: the response, or `_returned` set on this task only |
| TaskQueues.TaskQueue.WatchdogPass | hermes_agent_a2a/server.py:141-154 | The pass over the objects is the model's pass at `now - 2 * timeout` |
| TaskQueues.TaskQueue.PreLlmCall | hermes_agent_a2a/hooks.py:54-81 | The sequence of queue calls is the model's `pre_llm_call`; when the state change hook raises, the rest is requeued all the same, the exception leaves the call and no task is injected |
| RateLimiterBounds.TokenBucketBound | hermes_agent_a2a/rate_limiter.py:94-123 | Within one bucket lifetime the cost admitted from any point up to an admitted call is at most capacity plus refill since that point's last refill, in whatever order clock readings arrive |
| RateLimiterBounds.StepPotential | hermes_agent_a2a/rate_limiter.py:105-123 | Tokens minus rate times last refill never rises and falls by the cost of each admission |
| RateLimiterBounds.BucketsNeverOverfill | hermes_agent_a2a/rate_limiter.py:105-117 | No bucket ever holds more than the capacity |
| RateLimiterBounds.RetryAfterIsHonest | hermes_agent_a2a/rate_limiter.py:94-123 | A refused client that sends nothing for the announced seconds is admitted next, whatever others, evictions and sweeps do |
| RateLimiterBounds.RetryAfterSufficesIff | hermes_agent_a2a/rate_limiter.py:91-123 | In any state the announced wait suffices if and only if the capacity holds one token and the debt is within what the wait refills |
| RateLimiterBounds.AnnouncedIsLeast | hermes_agent_a2a/rate_limiter.py:97-123 | A refusal announces n seconds with (n - 1) * requests <= window < n * requests: the least whole number of seconds in which more than one token accrues |
| RateLimiterBounds.CallInNumbers | hermes_agent_a2a/rate_limiter.py:94-123 | In tokens and seconds: a new client is let in and starts with requests * burst less the cost; a known one is let in exactly when its tokens, refilled at requests per window up to that capacity, cover the cost; one counter goes up |
| RateLimiterRetry.RetryAfterHonestIff | hermes_agent_a2a/rate_limiter.py:81-123 | Over every run from the empty limiter with cost 1 and a clock that does not go back, every refusal is honest if and only if the capacity holds one token |
| RateLimiterRetry.RetryAfterHonestWhenLateIff | hermes_agent_a2a/rate_limiter.py:81-123 | For every configuration and lateness: over every run of cost-1 calls whose readings are late by at most that much, every refusal is honest if and only if the capacity holds one token and the wait less the lateness refills one |
| RateLimiterRetry.SlackInSeconds | hermes_agent_a2a/rate_limiter.py:91-123 | That is: the lateness is at most the announced wait less the window divided by the requests |
| RateLimiterRetry.RetryAfterNeverSuffices | hermes_agent_a2a/rate_limiter.py:81-123 | With a smaller capacity a client's first call is admitted and no later one ever, whatever was announced |
| RateLimiterRetry.LateReadingBreaksRetryAfter | hermes_agent_a2a/rate_limiter.py:88-123 | One run beyond that slack: after a reading 100 seconds late the announced wait does not suffice |
| RateLimiterSweep.SweepIsInvisible | hermes_agent_a2a/rate_limiter.py:156-178 | With a nondecreasing clock, costs within capacity and no more clients than entries, sweeps inserted anywhere change no answer |
| RateLimiterSweep.StaleIsFull | hermes_agent_a2a/rate_limiter.py:164-176 | A bucket the sweep may remove has refilled to the capacity |
| RateLimiterSweep.SweepInSeconds | hermes_agent_a2a/rate_limiter.py:156-178 | The sweep removes exactly the clients without a call for more than twice the burst factor times the window, and leaves the other buckets |
| RateLimiterLru.TrackedAreLastDistinct | hermes_agent_a2a/rate_limiter.py:100-154 | With strictly increasing readings and no sweep, the tracked clients are exactly the last `max_entries` distinct callers, refused calls included; the cap is never exceeded |
| RateLimiterLru.FrontIsSince | hermes_agent_a2a/rate_limiter.py:146-154 | The move-to-front list up to a client is exactly who called since that client did |
| RateLimiters.RateLimiter.Allow | hermes_agent_a2a/rate_limiter.py:94-123 | Table, counters and verdict become the model's |
| RateLimiters.RateLimiter.EvictOldest | hermes_agent_a2a/rate_limiter.py:146-154 | The bucket with the first smallest refill time leaves |
| RateLimiters.RateLimiter.FindOldest | hermes_agent_a2a/rate_limiter.py:150-153 | The scan finds the first key with the smallest refill time |
| RateLimiters.RateLimiter.CleanupSweep | hermes_agent_a2a/rate_limiter.py:156-178 | Exactly the stale buckets leave, as in the model |
| SlidingWindows.AcceptsIffRoomInWindow | hermes_agent_a2a/tool_handlers.py:419-427 | With nondecreasing times a call is accepted if and only if fewer than the maximum of accepted calls lie in the closed window ending at it |
| SlidingWindows.WindowBound | hermes_agent_a2a/tool_handlers.py:419-427 | No closed interval of the window's length ever holds more accepted calls than the maximum |
| SlidingWindows.DequeWithinLimit | hermes_agent_a2a/tool_handlers.py:419-427 | The deque never outgrows the maximum, whatever the clock does; with nondecreasing times it is the sorted tail of the accepted calls |
| SlidingWindows.BoundSurvivesIff | hermes_agent_a2a/tool_handlers.py:419-427 | For every limit, window and lateness: the bound holds over every run whose readings are late by at most that much if and only if there is at most one slot or no reading is late |
| SlidingWindows.LateReadingBreaksBound | hermes_agent_a2a/tool_handlers.py:419-427 | One such run: a reading taken before the lock but used late puts three calls where two are allowed |
| SlidingWindows.SlidingWindow.Consume | hermes_agent_a2a/tool_handlers.py:419-427 | The loop and the append do what the model's call does |
| SseRuns.ExactlyOnceFifo | hermes_agent_a2a/sse_handler.py:154-222 | What an open stream's polls returned, then its buffer, is exactly the events pushed since it opened, in order; once gone, what was returned stays a prefix; the stream remembers the id of the last one |
| SseRuns.NothingAfterClose | hermes_agent_a2a/sse_handler.py:178-222 | After a close or idle removal, pushes and polls of the stream have no effect |
| SseRuns.IndexConsistency | hermes_agent_a2a/sse_handler.py:161-206 | After any run a task lists exactly its open streams, each once |
| SseRuns.CleanupIsExact | hermes_agent_a2a/sse_handler.py:275-291 | Cleanup removes exactly the streams whose last push or opening is more than the timeout ago, however often polled, and leaves the others as they were |
| SseIds.NumberedLines | hermes_agent_a2a/sse_handler.py:183-190 | The n-th line of a stream that only took events without an id is named task id, underscore, n, and no id repeats |
| SseIds.UniqueIdsIff | hermes_agent_a2a/sse_handler.py:183-190 | Ids within a stream are unique if and only if the ids the events came with are and none is a number the stream made up |
| SseIds.EventIdInjective | hermes_agent_a2a/sse_handler.py:186-186 | Different numbers give different ids |
| SseIds.BroadcastReachesAll | hermes_agent_a2a/hooks.py:247-257 | A broadcast that no other thread interrupts gives each open stream of the task exactly one line, the same for all and numbered by the first, and touches no other stream |
| SseIds.BroadcastRepeatsId | hermes_agent_a2a/hooks.py:254-255 | Two broadcasts with a close between them put one id twice into one stream |
| SseBroadcasts.BroadcastRepeatsIff | hermes_agent_a2a/hooks.py:247-257 | Over every run of openings, polls, closings, cleanups and broadcasts: the next broadcast adds to each open stream of its task one line numbered one more than the task's broadcasts since its current first stream became first, and the stream sees an id twice if and only if it took that number already |
| SseBroadcasts.BroadcastInTurns | hermes_agent_a2a/hooks.py:253-255 | Whatever other threads do between the listing and the pushes and between two pushes: each listed stream open at its turn takes one line, the same for all, named by the first of them; no push touches another stream |
| SseBroadcasts.TurnsAreTheBroadcast | hermes_agent_a2a/hooks.py:253-255 | With nothing in between, the pushes are the broadcast of the rows above |
| SseStreamers.SSEStreamer.OpenStream | hermes_agent_a2a/sse_handler.py:154-166 | Both indexes become the model's, with a fresh stream object |
| SseStreamers.SSEStreamer.PushEvent | hermes_agent_a2a/sse_handler.py:168-190 | Stream and shared event object change as in the model |
| SseStreamers.SSEStreamer.GetPending | hermes_agent_a2a/sse_handler.py:208-222 | Hands the buffer over and empties it, leaving the activity time alone |
| SseStreamers.SSEStreamer.IsClosed | hermes_agent_a2a/sse_handler.py:224-228 | True exactly when the stream is not in the table |
| SseStreamers.SSEStreamer.CloseStream | hermes_agent_a2a/sse_handler.py:192-206 | The stream leaves both indexes |
| SseStreamers.SSEStreamer.CloseIdleStreams | hermes_agent_a2a/sse_handler.py:275-291 | The loop over a copy of the keys does what the model's cleanup does |
| SseStreamers.SSEStreamer.PushSse | hermes_agent_a2a/hooks.py:247-257 | One event object goes to every listed stream, as in the model's broadcast |
| SsePoll.PollUntilTerminal | hermes_agent_a2a/server.py:1103-1124 | With other threads working between its steps: the loop ends with the first round that has a reason to, and for that reason alone (time is up, a write failed, the stream is gone, or the status is terminal, in that order); on every exit the stream is closed, the client was sent a prefix of the stream's events in order (all polled ones unless it disconnected), every write but the last succeeded, and an exit on a terminal state attempts that status last |
| SsePoll.TerminalStatusEnds | hermes_agent_a2a/server.py:1110-1120 | If nothing stops the rounds before k, and round k begins in time, reaches the client and finds the stream open and the status in a state no transition leaves, the loop ends in round k with that status |
| SsePoll.TimeoutSawNoEnd | hermes_agent_a2a/server.py:1108-1123 | A timeout means that no round saw the task in such a state |
| SsePoll.EndsOnce | hermes_agent_a2a/server.py:1108-1124 | At most one round and one reason meet the description of the exit |
| SsePoll.TerminalIffNoEdge | hermes_agent_a2a/a2a_spec/tasks.py:132-133 | The states that count as terminal are exactly those no transition leaves |
| SsePoll.EmitStatus | hermes_agent_a2a/server.py:1090-1101 | The id line if asked for, the event name and its data, up to the first write that fails; true exactly when all were written |
| IdempotencyModel.EvictionIsInvisible | hermes_agent_a2a/persistence.py:88-141 | With a nondecreasing clock, `evict_expired` anywhere changes no answer of `get` or `check_conflict` |
| IdempotencyModel.IdempotencyStore.Get | hermes_agent_a2a/persistence.py:88-99 | Returns task and result of the unexpired entry and changes nothing, or nothing and drops the key |
| IdempotencyModel.IdempotencyStore.CheckConflict | hermes_agent_a2a/persistence.py:101-120 | A conflict exactly when an unexpired entry has another payload hash |
| IdempotencyModel.IdempotencyStore.Set | hermes_agent_a2a/persistence.py:122-132 | Stores the entry with its expiry |
| IdempotencyModel.IdempotencyStore.EvictExpired | hermes_agent_a2a/persistence.py:134-141 | Removes exactly the expired entries and returns how many |
| IdempotentRequests.StartsIff | hermes_agent_a2a/server.py:682-706 | A request reaches the queue if and only if its key names no live entry that conflicts or answers, its id is new and there is room; otherwise the queue is untouched |
| IdempotentRequests.ReplaysUntilExpiry | hermes_agent_a2a/server.py:682-752 | After a keyed request finished at t, and whatever whole requests and cleanups follow, each request with its key until t + ttl replays the result on an equal hash and conflicts otherwise, queue unchanged |
| IdempotencyHistory.AnsweredByHistory | hermes_agent_a2a/server.py:682-752 | After any interleaving of the locked steps of requests, results and cleanups with a nondecreasing clock: a keyed request conflicts if and only if the last request of its key finished before its check is unexpired then with another hash; else the last one finished before its look-up answers it if unexpired then, whatever its hash; else it starts if the id is new when looked for and there is room when it is enqueued |
| IdempotencyHistory.OtherPayloadReplayedIff | hermes_agent_a2a/server.py:684-697 | A request is answered with the result of another payload if and only if it found no conflict, a request of its key finished between its check and its look-up, and the last of those is unexpired with another hash |
| IdempotencyHistory.OtherPayloadReplayed | hermes_agent_a2a/server.py:684-697 | Such a run: a second request passes the check, the first finishes, the second is answered with its result |
| IdempotencyHistory.StepsAreTheCall | hermes_agent_a2a/server.py:682-706 | Taken without interruption the locked steps are the whole call of the rows on uninterrupted requests |
| IdempotencyHistory.StoreIsHistory | hermes_agent_a2a/persistence.py:88-141 | The store holds for every key exactly the last finished request that has not expired |
| IdempotentRequests.OverlappingRequestsBothStart | hermes_agent_a2a/server.py:682-706 | Two requests with one free key that both arrive before either finished are both enqueued |
| RequestHandler.PrepareAndEnqueue | hermes_agent_a2a/server.py:682-706 | Over the store and queue objects: reply, store and queue become the model's, and a fresh task is returned exactly when the request started |
| SubscriptionStores.GetIsScan | hermes_agent_a2a/subscription_store.py:41-111 | Index against scan: `get` returns only subscriptions of the task that were added and not removed, and all of them that have not expired |
| SubscriptionStores.GetIsExact | hermes_agent_a2a/subscription_store.py:41-111 | Lazy cleanup, exactly: a subscription of the task that was added and not removed is returned if and only if no cleanup that ran since found it expired, whatever the clock does |
| SubscriptionStores.AddBoundsExpired | hermes_agent_a2a/subscription_store.py:53-64 | After an addition the table has at most eleven entries, or none but the new one was expired at the cleanup |
| SubscriptionStores.SubscriptionStore.Add | hermes_agent_a2a/subscription_store.py:41-65 | Table and index become the model's, the lazy cleanup included |
| SubscriptionStores.SubscriptionStore.CleanupExpired | hermes_agent_a2a/subscription_store.py:75-88 | Exactly the expired subscriptions leave both tables; returns how many |
| SubscriptionStores.SubscriptionStore.Remove | hermes_agent_a2a/subscription_store.py:90-100 | The subscription leaves both tables; true exactly when it was there |
| SubscriptionStores.SubscriptionStore.Get | hermes_agent_a2a/subscription_store.py:102-109 | The indexed subscriptions of the task |
| Pagination.PageWalk | hermes_agent_a2a/server.py:165-201 | Following nextPageToken from the first page, or from any token that cannot be decoded, ends and yields the snapshot in descending order, nothing repeated or missing, ties in snapshot order |
| Pagination.WalkListsBothTables | hermes_agent_a2a/server.py:165-201 | The walk lists the tasks of both tables: each as often as an id stores it, pending or completed, with its creation time and the recorded state of its id, and nothing else |
| Pagination.WalkTies | hermes_agent_a2a/server.py:177-178 | Tasks of one time come pending first, then completed, each in the order of its table |
| Pagination.PageCounts | hermes_agent_a2a/server.py:189-201 | totalSize is the number of pending plus completed ids, pageSize the one asked for; a page shows what is left up to its size, and names a next page exactly when more is left |
| Pagination.TokenStartsOver | hermes_agent_a2a/server.py:181-187 | An empty or undecodable token, or one whose text is no number or a negative one, means offset 0 |
| Pagination.PagesSuffice | hermes_agent_a2a/server.py:189-192 | The walk takes exactly as many pages as the items need |
| Pagination.DescendingStableUnique | hermes_agent_a2a/server.py:178-178 | Descending order and the order of ties determine the sorted list |
| Pagination.LatestSorts | hermes_agent_a2a/server.py:178-178 | The sort is descending, stable and a permutation |
| Pagination.CursorRoundTrip | hermes_agent_a2a/server.py:181-192 | Decoding a produced token gives back its offset if and only if the offset has no more digits than `int` reads |
| Base64.Base64RoundTrip | hermes_agent_a2a/server.py:184-192 | Every byte string survives encoding and the lenient decoding (section 4 of RFC 4648) |
| Base64.OutsidersAreSkipped | hermes_agent_a2a/server.py:184-184 | A character outside the alphabet, wherever it stands, does not change what is decoded |
| Base64.Vectors | hermes_agent_a2a/server.py:192-192 | Vectors of section 10 of RFC 4648 |
| Decimals.ParseDecimal | hermes_agent_a2a/server.py:184-192 | Reading the decimal text of a number gives the number, or nothing beyond the 4300 digits that `int` accepts by default |
| ExchangeLog.OutsideUnchanged | hermes_agent_a2a/persistence.py:237-257 | Whatever the file holds, an update leaves the text outside the located entry as it was read; without an entry or a change the file is left alone |
| ExchangeLog.OutsideUnchangedIff | hermes_agent_a2a/persistence.py:237-257 | An update leaves what surrounds the entry in the file as it was if and only if there is no carriage return in it |
| ExchangeLog.SaveAppendsIff | hermes_agent_a2a/persistence.py:207-214 | Saving is appending if and only if the file holds no carriage return |
| ExchangeLog.SaveReadsAsAppend | hermes_agent_a2a/persistence.py:207-214 | A saved file reads as if the entry had been appended |
| ExchangeFiles.RoundTripIff | hermes_agent_a2a/persistence.py:180-258 | If the entry's header is the first mention of its task, then every reply lands in the file byte for byte if and only if the file holds no carriage return and the entry is clean: no separator in the header line or the outbound text, the newline after each included, and no placeholder |
| ExchangeFiles.RecordedIff | hermes_agent_a2a/persistence.py:180-258 | In any file, carriage returns included: every reply is recorded in exactly its entry of the file as read if and only if the entry is clean as it is read |
| ExchangeFiles.CarriageReturnsCutEntry | hermes_agent_a2a/persistence.py:192-243 | A text that is clean as written can be unclean as read: a rule between carriage returns |
| ExchangeRoundTrip.PlacedIff | hermes_agent_a2a/persistence.py:238-256 | The same equivalence on the text that was read |
| ExchangeRoundTrip.TrailingRuleIsUnclean | hermes_agent_a2a/persistence.py:192-243 | A text without a separator can still end in a rule that the next newline completes |
| ExchangeLog.ConversationFile.SaveExchange | hermes_agent_a2a/persistence.py:180-214 | The file becomes its old text as read, followed by the inbound or outbound entry that the rows below read back |
| ExchangeReader.InboundReadsBackIff | hermes_agent_a2a/persistence.py:177-203 | An inbound entry begins with its header line; cut at the peer's label, the reply's label and the end of the entry it gives back what the peer sent and what was replied, in that order, if and only if the first does not hold the reply's label and the second, with the newline after it, not the end of an entry |
| ExchangeReader.OutboundReadsBackIff | hermes_agent_a2a/persistence.py:177-203 | The same of an outbound entry, for what was sent and the peer's reply |
| ExchangeReader.SavedThenRead | hermes_agent_a2a/persistence.py:207-212 | Whatever is written behind it later, a saved entry without carriage returns is read back behind the text of the file before |
| ExchangeInbound.InboundUpdatedIff | hermes_agent_a2a/persistence.py:237-258 | If the first mention of the task is an inbound entry, an update changes the file if and only if the entry, up to the first separator in it, holds the placeholder and the reply is not the placeholder's own text |
| ExchangeInbound.InboundLeftAlone | hermes_agent_a2a/persistence.py:237-258 | So such an entry is left alone, with the whole file, if none of its lines holds the placeholder |
| ExchangeLog.ConversationFile.UpdateExchange | hermes_agent_a2a/persistence.py:219-258 | Return value and file are the model's update |
| Texts.TranslatedJoin | hermes_agent_a2a/persistence.py:207-207 | Two texts read together as they read apart, unless a carriage return and a newline meet |

## Left out

- HTTP parsing, routing, headers, authentication, agent cards and schemas.
- Text, metadata and context of a task, and every log or audit line: no property depends on them.
- Network delivery: a webhook is a step that may run the failure callback.
- Subprocess workers, thread start and stop, singletons, metrics.
- The disabled limiter, which only bumps a counter without the lock.
- Float rounding: tokens, times and rates are exact reals.
- `set_auth_required` and `set_authenticated`, which neither the server nor the hooks call; the states they write are in the state machine.
- The choice of task in `post_llm_call` without a task id: it takes the first of an unordered set, so it is "the oldest" only when at most one task is processing. Completion itself is modelled.
- `pre_gateway_dispatch`, whose captured id includes the closing bracket.
- Generation of UUIDs: stream and subscription ids are fresh.
- The time stamp inside a rendered event line: a line is its id and an opaque body.
- TaskRuntime.WatchdogLeavesNoOrphan: listing the pending tasks is one step between lock-held bodies, because the dictionary is copied in one call; that the unlocked copy can fall inside another thread's lock-held body is not modelled.
- TaskQueues.TaskQueue.PreLlmCall: of the three calls it guards only the state change hook can raise, and it is a parameter whether it does.
- SseIds.BroadcastReachesAll: listing the streams and pushing to them are separate critical sections, taken here as one; `BroadcastInTurns` is about what happens between them.
- SseBroadcasts.BroadcastRepeatsIff: each broadcast is one step, as above.
- Pagination.PageWalk: for a queue whose size has at most 4300 digits, the most `int` and `str` convert by default.
- RequestHandler.PrepareAndEnqueue: the call without interruption; its four critical sections are apart in `IdempotencyHistory`.
- SsePoll.PollUntilTerminal: works on the stream manager's value rather than the object, because other threads change the manager between its steps; they are arbitrary sequences of operations that neither open nor poll this stream.
- Decimals.ParseInt: reads ASCII; the program's `int` also accepts other Unicode digits and blanks, which no token the server issues contains.
- The hash of a payload is an arbitrary function.
- IdempotentRequests.ReplaysUntilExpiry: one request at a time, as `OverlappingRequestsBothStart` and `OtherPayloadReplayed` show it must be.
- Rotation of a conversation file that has grown too large, and the sanitising of agent names (a sanitised name holds no newline and no carriage return).
- Identity and vault loading, environment variables, plugin registration.
