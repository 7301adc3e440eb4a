# Verification of the transcription gateway

A Dafny model of the gateway's three stateful protocols and of the small codecs
its spreadsheet export relies on, with proofs about every run of them:

- the per-IP **token-bucket limiter** with its sweep of idle buckets
  (`gateway/internal/ratelimit`);
- the **life of a transcription job**: submit handlers, a bounded channel,
  workers, the TTL sweeper and pollers sharing one mutable record
  (`gateway/internal/transcription`);
- the **spreadsheet export**: check, append, retry with exponential backoff,
  under a deadline shared with the LLM's retry loop
  (`gateway/internal/sheets`, `gateway/internal/llm`);
- the **codecs** of an exported row: amounts in free text, A1 ranges and the row
  number read back from one, serial dates, cell comparison and disarming.

`dafny verify dfyconfig.toml` checks the whole project.

| file | content |
|---|---|
| `TokenBuckets.dfy`, `LimiterTheorems.dfy`, `LimiterSweeps.dfy`, `LimiterBounds.dfy` | the limiter as a function of its history; eviction; what a sweep forgets; bounds, optimality, independence |
| `RateLimiter.dfy` | the limiter's classes, updated in place, proved against that function |
| `JobProtocol.dfy`, `JobInvariant.dfy`, `JobTheorems.dfy` | the job's transition system, its inductive invariant, the consequences |
| `JobAnswers.dfy`, `JobWitnesses.dfy` | what a poll's answer is worth, exactly; runs that show what is not promised |
| `JobObjects.dfy` | job, store and queue as classes, and their methods as undisturbed runs of the transition system |
| `Cells.dfy`, `SheetExport.dfy`, `SheetTheorems.dfy` | cells and rows; the export protocol for any number of workers; duplicates |
| `Backoff.dfy`, `SheetClient.dfy` | the two retry loops, proved against one function, and tied to the export protocol |
| `Exports.dfy`, `ExportTheorems.dfy` | the job and export protocols run together: from a submitted job to its row |
| `Regexes.dfy`, `Decimals.dfy`, `Amounts.dfy`, `A1.dfy`, `Dates.dfy`, `BuiltRows.dfy` | the codecs, and the rows built from them |

## What is assumed

- Memory is sequentially consistent; one step is one field read or write, one
  operation on the store's map, one channel operation, one clock reading or one
  external call. Job IDs are fresh; a job's ID is its position in the order of
  submission.
- Clocks never run backwards. Times and tokens are exact reals; amounts are exact
  until they are rounded.
- A wait of the retry loops ends when the earlier of timer and deadline fires; an
  exact tie may go either way.
- A read of the tab is one atomic snapshot of rows 1-1000 and may fail. An append
  may fail before or after it takes effect, but takes no effect after the call
  that made it has returned. All workers write to one tab, which only grows;
  people may append to it at any time.
- What a later read returns of a written row is a parameter, `kept`: how many of
  its leading cells. No theorem assumes all of them come back; where that
  matters the theorem says so.
- Of float parsing, printing and rounding only `Lawful` is assumed: printing then
  parsing a finite float gives it back, rounding gives a float and leaves floats
  alone, and neither the empty text nor the way booleans and null print is a number.
  `BuiltRows.LawfulIsSatisfiable` shows this can be met.

## What the proofs found

Where the code and what is written about it disagree, the model follows the code.

- Forgetting idle buckets is invisible, and the sliding-window limit holds, exactly
  if the burst is at most thirty minutes' worth of calls
  (`RATE_BURST_PER_IP <= 30 * RATE_LIMIT_PER_IP`). Beyond that even a refused call
  matters: it keeps a drained bucket from being forgotten.
- The 60 seconds of `Retry-After` are enough exactly if both limits are at least 1.
- `README.md:160-163` says re-submitting "never duplicates a row". With recognised
  rows this holds exactly with at most one worker; with N workers the bound is N
  copies, and it is attained.
- A row is recognised exactly if all four cells come back and neither the type nor
  the comments spell NaN. If reads drop empty cells at a row's end, a row with
  empty comments is never recognised, and re-submitting it adds it every time.
- The comment on `Stop` says workers drain. They do not: unless the channel has no
  room at all, an accepted job can be left queued for ever.
- A job refused because the channel is full keeps its audio until it is swept.
- A poll can answer "failed" with an empty error, in every configuration: the two
  fields are separate writes. The error read is final exactly if the job's owner
  does not still owe its message; a poll begun after the job's last Save always
  answers with the final record.
- The sweep reads a job's time and deletes the job in two steps, so a job stamped in
  between is removed before its TTL has passed; its last Save then puts it back.
- The row's own values are the only key: a second purchase on the same day with
  equal amount, type and comments counts as already exported.
- 24 June 2026 is day 46197, not 46202 as a comment in
  `gateway/internal/sheets/auth_test.go:135` says; that test compares with a
  computed value and so does not notice.

## Model

| member | source | states |
|---|---|---|
| LimiterTheorems.LevelRises | gateway/internal/ratelimit/ratelimit.go:57-62 | between events an IP's level rises at the rate up to the burst, bucket or no bucket |
| LimiterTheorems.CallSpends | gateway/internal/ratelimit/ratelimit.go:41-71 | the answer depends on the level alone; one whole token is spent if there is one, otherwise nothing; other IPs keep theirs |
| LimiterTheorems.SweptRunAgrees | gateway/internal/ratelimit/ratelimit.go:41-86 | bisimulation: a swept and an unswept limiter at the same levels give the same answers for ever, if idle buckets refill before eviction |
| LimiterTheorems.EvictionShows | gateway/internal/ratelimit/ratelimit.go:36-86 | otherwise some run tells the two apart |
| LimiterTheorems.EvictionInvisibleExactly | gateway/internal/ratelimit/ratelimit.go:36-86 | sweeps at arbitrary instants change no answer of any run if and only if burst < 1 or rate x maxAge >= burst |
| LimiterTheorems.ConfiguredEviction | gateway/cmd/gateway/main.go:83-86 | the same in the configuration's terms: burst < 1 or burst <= 30 x calls per minute |
| LimiterSweeps.BucketsExactly | gateway/internal/ratelimit/ratelimit.go:45-83 | after any run an IP has a bucket if and only if it has called and no sweep since found its last call more than maxAge ago, whatever its tokens |
| LimiterSweeps.SweepKeepsExactly | gateway/internal/ratelimit/ratelimit.go:73-86 | after a sweep at t an IP has a bucket if and only if its last call was at t - maxAge or later |
| LimiterSweeps.IdleStartsAfresh | gateway/internal/ratelimit/ratelimit.go:45-83 | an IP idle longer than that at a sweep is next answered with burst - 1 remaining, however many tokens it had left |
| LimiterBounds.StretchBound | gateway/internal/ratelimit/ratelimit.go:41-86 | a stretch of a run admits at most burst + rate x its duration |
| LimiterBounds.WindowBoundExactly | gateway/internal/ratelimit/ratelimit.go:41-86 | in every window of every run, sweeps included, an IP gets at most burst + rate x (t - s) calls in, if and only if rate x maxAge >= burst; with a burst below 1, where nothing is admitted, if and only if that number is never negative (burst 0, rate not negative) |
| LimiterBounds.GreedyIsOptimal | gateway/internal/ratelimit/ratelimit.go:57-70 | no choice of calls that a bucket of this rate and burst could pay for admits more than Allow has, after any run |
| LimiterBounds.GreedyIsAffordable | gateway/internal/ratelimit/ratelimit.go:57-70 | with harmless eviction Allow's own choice is such a choice, so it is a best one |
| LimiterBounds.OtherIPsAreFree | gateway/internal/ratelimit/ratelimit.go:45-55 | deleting all calls of other IPs changes no answer of this one |
| LimiterBounds.RefusalsAreFreeExactly | gateway/internal/ratelimit/ratelimit.go:63-68 | deleting any refused call changes no other answer, if and only if eviction is invisible |
| LimiterBounds.RefusalKeepsBucket | gateway/internal/ratelimit/ratelimit.go:64-80 | otherwise a refused call can be what keeps a drained bucket from being forgotten |
| LimiterBounds.WaitingPays | gateway/internal/ratelimit/ratelimit.go:57-68 | an IP that gets nothing in gains at least the rate, whatever is refused or swept meanwhile |
| LimiterBounds.RetryIsHonouredExactly | gateway/internal/ratelimit/ratelimit.go:114-121 | a refused client that gets nothing in for 60 seconds is then admitted, in every run, if and only if RATE_LIMIT_PER_IP >= 1 and burst >= 1 |
| RateLimiting.TokenBucket.Spend | gateway/internal/ratelimit/ratelimit.go:57-70 | refill capped at the burst, both stamps set, one token taken if there is one; the answer |
| RateLimiting.RateLimiter.constructor | gateway/internal/ratelimit/ratelimit.go:30-38 | no IP has a bucket yet |
| RateLimiting.RateLimiter.Allow | gateway/internal/ratelimit/ratelimit.go:41-71 | new state and answer are those of the specification the theorems speak of; no two IPs come to share a bucket |
| RateLimiting.RateLimiter.Sweep | gateway/internal/ratelimit/ratelimit.go:73-86 | exactly the buckets last used before the cutoff are gone, the others are the same objects with the same fields |
| JobInvariant.InvAfter | gateway/internal/transcription/queue.go:64-149 | ownership, records, retention, polls and clock stay consistent under every interleaving of all actors |
| JobInvariant.StepEvolves | gateway/internal/transcription/queue.go:85-149 | no step moves a record's status backwards, changes the result of an ended job or takes its time stamp back: the stamp written is a clock reading taken by the owner after the last one |
| JobTheorems.ExactlyOneOwner | gateway/internal/transcription/queue.go:64-149 | in every reachable state a submitted job is with exactly one of handler, channel, one worker, or nobody (finished or refused) |
| JobTheorems.FirstInFirstOut | gateway/internal/transcription/queue.go:64-83 | receives followed by the channel equal the successful enqueues in order; no job is received or finished twice |
| JobTheorems.BacklogBound | gateway/internal/transcription/queue.go:35-56 | accepted unfinished jobs number at most MaxQueueSize + NumWorkers |
| JobTheorems.AudioReleased | gateway/internal/transcription/queue.go:93-95 | every job a worker finished has released its audio; a refused job still holds it |
| JobTheorems.Retention | gateway/internal/transcription/store.go:46-64 | from its first Save a job that has not ended is found; from its last Save it is found until more than the TTL after its UpdatedAt, even if a sweep falls between the status and time writes |
| JobTheorems.LeavesOnlyWhenDue | gateway/internal/transcription/store.go:53-62 | only a sweep removes a job, only an ended one, and either it is more than a TTL old or its last Save is still to come |
| JobAnswers.DueJobIsSwept | gateway/internal/transcription/store.go:53-62 | a job that is over and more than a TTL old when a sweep begins is gone for ever once that sweep has ended, whatever goes on meanwhile |
| JobTheorems.LastSaveStores | gateway/internal/transcription/store.go:24-28 | the step that makes a job's last Save leaves it in the store, whatever was removed before |
| JobWitnesses.UndueJobLeavesExactly | gateway/internal/transcription/store.go:57-58 | some run removes a job that is not past its TTL, if and only if the TTL is not negative |
| JobTheorems.StatusMoves | gateway/internal/transcription/queue.go:85-149 | statuses move queued, processing, done or failed, written by the worker holding the job; or queued to failed, by the handler of a refused job |
| JobTheorems.TerminalIsFinal | gateway/internal/transcription/queue.go:97-149 | done and failed are absorbing and freeze the result, whatever happens next |
| JobAnswers.PollAlone | gateway/internal/transcription/handler.go:138-148 | in every reachable state between sweeps an undisturbed poll of a stored job answers with its whole record, whatever that is |
| JobAnswers.NotFoundExactly | gateway/internal/transcription/handler.go:138-144 | whatever goes on, a poll is answered "not found" if and only if the job is not in the store when it is looked up |
| JobAnswers.KeptJobIsFound | gateway/internal/transcription/store.go:31-36 | a poll of a job that has not ended, or of a finished one within its TTL, is never answered "not found" |
| JobAnswers.PollNeverStuck | gateway/internal/transcription/handler.go:126-150 | a poll can always begin and go on, but for a lookup while a sweep holds the lock |
| JobTheorems.DonePollIsComplete | gateway/internal/transcription/job.go:28-38 | a poll reading field by field that answers done carries the job's final result, with the extraction if there is an LLM, and no error |
| JobWitnesses.FailedPollMayLackError | gateway/internal/transcription/handler.go:71-75 | in every configuration a poll can answer failed with an empty error while the job's error is written only afterwards |
| JobAnswers.ErrorFinalExactly | gateway/internal/transcription/queue.go:97-121 | the error of an ended job never changes again, in any continuation, if and only if its owner is not about to write a message that is not empty |
| JobAnswers.PollReadsFinalErrorExactly | gateway/internal/transcription/job.go:28-38 | a poll that has seen failed and reads the error now reads the one the job has ever after, under that condition and no other |
| JobAnswers.RefusedSaysSo | gateway/internal/transcription/handler.go:71-83 | from its error write on a refused job says the queue is full, for ever |
| JobAnswers.LatePollIsFinal | gateway/internal/transcription/handler.go:138-148 | a poll begun after a job's last Save answers with the job's final status, result, error and time, whatever else goes on |
| JobTheorems.ExitedMeansIdle | gateway/cmd/gateway/main.go:109-121 | when all workers have exited nothing is processing, everything received is finished and the rest is still queued, in order and in the store |
| JobTheorems.ScheduleRunsDry | gateway/internal/transcription/queue.go:59-83 | without new submissions every schedule contains at most a fixed number of handler and worker steps |
| JobTheorems.DryMeansExited | gateway/internal/transcription/queue.go:73-83 | after Stop a schedule with none left, outside a sweep, has every worker exited and every handler over |
| JobTheorems.DryMeansServed | gateway/internal/transcription/queue.go:73-83 | unless stopped, a schedule with no work left has finished every accepted job, and every worker is waiting |
| JobTheorems.IdleReceives | gateway/internal/transcription/queue.go:75-81 | a waiting worker can take the oldest job, stopped or not |
| JobTheorems.NobodyLeft | gateway/internal/transcription/queue.go:75-78 | workers leave only after Stop, and can then leave whenever they wait |
| JobTheorems.AcceptedExactly | gateway/internal/transcription/queue.go:64-71 | a job about to be enqueued can be accepted if and only if the channel has room, or, unbuffered, a worker is waiting and Stop was not called |
| JobTheorems.OutsideIsFree | gateway/internal/transcription/handler.go:56-69 | no state keeps time from passing, jobs from being submitted, polls from beginning, Stop from being called once, or a sweep from beginning when none is going on |
| JobTheorems.SweepNeverStuck | gateway/internal/transcription/store.go:53-62 | a sweep holding the lock can always go on |
| JobTheorems.SweepEnds | gateway/internal/transcription/store.go:53-62 | each of its steps brings its end nearer and nobody else's puts it off |
| JobTheorems.StopCanStrandAJob | gateway/internal/transcription/queue.go:58-83 | an accepted job can be left in the channel with every worker gone |
| JobTheorems.StopStrandsExactly | gateway/internal/transcription/queue.go:58-83 | Stop can strand an accepted job if and only if the channel has room for one |
| JobTheorems.StrandedForEver | gateway/internal/transcription/queue.go:73-83 | what is stranded is never received again |
| JobObjects.Job.constructor | gateway/internal/transcription/handler.go:56-67 | a job starts queued, with its audio, no result and no error |
| JobObjects.JobStore.Save | gateway/internal/transcription/store.go:24-28 | the job is stored under its ID, nothing else changes |
| JobObjects.JobStore.Get | gateway/internal/transcription/store.go:31-36 | found if and only if stored, and then with the ID asked for |
| JobObjects.JobStore.Delete | gateway/internal/transcription/store.go:39-43 | that job is gone, nothing else changes |
| JobObjects.JobStore.Sweep | gateway/internal/transcription/store.go:53-62 | exactly the ended jobs older than the TTL are gone |
| JobObjects.JobQueue.Enqueue | gateway/internal/transcription/queue.go:64-71 | appended at the back if there is room, otherwise refused and nothing changed |
| JobObjects.JobQueue.Submit | gateway/internal/transcription/handler.go:69-83 | the job is stored and enqueued, or stored as failed with the queue-full error |
| JobObjects.JobQueue.ProcessJob | gateway/internal/transcription/queue.go:85-149 | the record left is the one the transition system's worker leaves, on every branch |
| JobObjects.HandlerAlone | gateway/internal/transcription/handler.go:69-83 | two or seven undisturbed handler steps amount to one call of Submit |
| JobObjects.WorkerAlone | gateway/internal/transcription/queue.go:85-149 | worker steps with nothing but time passing between them are legal and amount to one call of ProcessJob |
| JobObjects.SweepAlone | gateway/internal/transcription/store.go:53-62 | a sweep looking at jobs one by one, in any order, deletes what JobStore.Sweep does |
| Cells.CellEqualIsEquivalence | gateway/internal/sheets/client.go:443-468 | on cells JSON can hold, cell equality is symmetric and transitive, and reflexive exactly apart from NaN spellings |
| Cells.CellEqualExactly | gateway/internal/sheets/client.go:443-468 | which cells are equal, kind by kind: numbers and texts that spell numbers as numbers other than NaN, all else exactly if printed alike |
| Cells.MatchExactly | gateway/internal/sheets/client.go:424-441 | a read row matches if and only if it is no narrower and each wanted cell is equal in that sense |
| Cells.NumeralsAreFound | gateway/internal/sheets/client.go:424-452 | a written row whose numerals come back as numbers, perhaps with more cells behind, is still found, if and only if no cell spells NaN |
| Cells.NumericPrintsApart | gateway/internal/sheets/client.go:445-452 | a numeric cell never prints like a non-numeric one |
| Cells.SanitizeRow | gateway/internal/sheets/client.go:678-688 | a fresh row with each formula prefixed by a quote, the other cells as they were |
| Cells.SanitizedIsSafe | gateway/internal/sheets/client.go:675-688 | no cell starts with "=", a formula becomes its text behind a single quote, other cells stay, and once is enough |
| Cells.RowMatches | gateway/internal/sheets/client.go:424-441 | true exactly if some stored row is wide enough and equal to the sanitized row cell by cell |
| Cells.ReadsBackExactly | gateway/internal/sheets/client.go:424-441 | a row read back matches itself if and only if no cell was dropped and none spells NaN |
| SheetExport.DuplicateBound | gateway/internal/sheets/client.go:363-441 | whatever reads fail and acknowledgements are lost, a tab within 1000 rows gains at most one match of a row per worker, and none if one was there |
| SheetExport.EachCallOnce | gateway/internal/sheets/client.go:363-389 | each call adds at most one row, and a nil return means a matching row is in the tab |
| SheetTheorems.CopiesBoundedExactly | gateway/internal/sheets/client.go:363-441 | a row is written at most once per worker in every run, if and only if it is recognised when read back |
| SheetTheorems.SelfMatchExactly | gateway/internal/sheets/client.go:424-441 | a row is recognised if and only if all its cells come back and none spells NaN |
| SheetTheorems.BoundIsAttained | gateway/internal/sheets/client.go:363-389 | some run of N workers writes N copies |
| SheetTheorems.BeyondTheWindow | gateway/internal/sheets/client.go:400 | past row 1000 every call adds another copy |
| SheetTheorems.SingleWorkerKeepsUnduplicated | README.md:160-163 | with one worker "no two gateway rows match" survives every sequence of calls, failures and re-submissions |
| SheetTheorems.NeverDuplicatesExactly | README.md:160-163 | the promise that re-submitting never duplicates holds if and only if there is at most one worker |
| SheetTheorems.PeopleMayAppend | gateway/internal/sheets/client.go:470-476 | other people's rows can appear at any time, and a matching one within the window is seen by every later read |
| SheetTheorems.SeenExactly | gateway/internal/sheets/client.go:400 | reads see rows 1 to 1000 and no others |
| Exports.ProjectsToJobs | gateway/internal/transcription/queue.go:73-149 | jobs and exports run together are, seen as jobs, a run of the job protocol |
| Exports.ProjectsToSheet | gateway/internal/transcription/queue.go:129-141 | and, seen as exports, a run of the export protocol |
| ExportTheorems.BuiltRowsMatch | gateway/internal/transcription/queue.go:136 | the rows BuildRow makes of extractions are such as the joint theorems ask for |
| ExportTheorems.OneCallPerJob | gateway/internal/transcription/queue.go:129-141 | a job is exported by at most one call, with the row of the extraction its record shows |
| ExportTheorems.OneRowPerJob | gateway/internal/sheets/client.go:363-389 | the rows the gateway adds to a tab are those of its exported jobs, in order, and a job with a recognised row adds at most one, however many workers there are and acknowledgements are lost |
| ExportTheorems.DoneIsExported | gateway/internal/transcription/queue.go:108-149 | with an LLM and a spreadsheet every done job was exported by exactly one call, as its final result says, and if that returned nil a recognised row is there |
| ExportTheorems.ExportNeverStuck | gateway/internal/transcription/queue.go:129-141 | a worker at its export can always begin the call, take its next step or leave it |
| ExportTheorems.DeliveredExactly | gateway/internal/transcription/queue.go:137-141 | a job counts as delivered exactly from leaving a call that returned nil |
| ExportTheorems.OthersRunFree | gateway/internal/transcription/queue.go:73-83 | no other step of the jobs, and nobody else's row, waits for an export |
| Backoff.ExtractWithRetry | gateway/internal/llm/client.go:103-123 | outcome, attempts and time are those of the specified loop, with 64-bit wrapping as in Go |
| Backoff.DelayExactly | gateway/internal/llm/client.go:113 | the shift and multiplication give 2^(k-1) seconds if and only if k <= 34 |
| Backoff.AttemptsWithinDeadline | gateway/internal/llm/client.go:106-121 | before attempt k the loop has waited exactly 2^(k-1) - 1 seconds, and T seconds allow at most log2(T + 1) + 1 attempts, never past the 34th, for any maxRetries |
| Backoff.BudgetAttained | gateway/internal/llm/client.go:106-121 | attempts that fail at once are exactly as many as that |
| Backoff.SucceedsInTime | gateway/internal/llm/client.go:106-121 | if attempts fail and their waits of 1, 2, 4 ... seconds end before the deadline, the next is made, and the first success is the answer, with its value, count and time |
| Backoff.GivesUpAfterAll | gateway/internal/llm/client.go:106-122 | if all attempts fail in time there are exactly maxRetries + 1 and no wait after the last |
| Backoff.StopsAtDeadline | gateway/internal/llm/client.go:114-119 | if a wait would end after the deadline no further attempt is made and the loop ends there |
| Backoff.TieGoesEitherWay | gateway/internal/llm/client.go:115-119 | a wait ending exactly at the deadline goes either way |
| Backoff.OnlyTiesDepend | gateway/internal/llm/client.go:115-119 | without such a tie the outcome does not depend on which of two ready channels is picked |
| Backoff.NoAttempts | gateway/internal/llm/client.go:104-106 | negative retries, and the largest int, which wraps, give no attempt; all other numbers at least one |
| Backoff.SharedDeadline | gateway/internal/transcription/queue.go:90-137 | what extraction and export have waited fits into the one deadline together |
| SheetClient.RemoteTab.ReadValues | gateway/internal/sheets/client.go:398-422 | the cells of the first 1000 rows, in order |
| SheetClient.RemoteTab.AppendRow | gateway/internal/sheets/client.go:473-508 | the sanitized row at the end, or nothing, whatever the caller is told |
| SheetClient.AppendRowWithRetry | gateway/internal/sheets/client.go:363-389 | outcome, attempts and time are those of the same specified loop, and the tab is what the attempts leave in it |
| SheetClient.AppendsWhatIsMissing | gateway/internal/sheets/client.go:363-389 | a row that is not there is appended once, by the first attempt that gets through in time, and the call returns nil |
| SheetClient.SkipsWhatIsThere | gateway/internal/sheets/client.go:367-372 | a row that is there is left alone, and the first read that gets through in time makes the call return nil |
| SheetClient.FindsWhatWasLost | gateway/internal/sheets/client.go:363-389 | after an append whose acknowledgement was lost the next read that gets through finds the row: nil, and the row is there once |
| SheetClient.CallAddsAtMostOne | gateway/internal/sheets/client.go:363-389 | however its attempts fail an undisturbed call adds nothing or one row, and if it succeeds a match is there |
| SheetClient.WholeCallIsARun | gateway/internal/sheets/client.go:363-389 | from its call on the method is a run of one worker of the export protocol, for any number of attempts |
| SheetClient.CallIsARun | gateway/internal/sheets/client.go:363-389 | from its first read to its return the method is a run of one worker of the export protocol |
| Regexes.ManyIsRun | gateway/internal/sheets/client.go:194 | a greedy star prefers the longest run |
| Amounts.ScanIsTheRegex | gateway/internal/sheets/client.go:194-203 | a linear scanner finds exactly the leftmost, first-choice match of the amount pattern |
| Amounts.ScannedIsDecimal | gateway/internal/sheets/client.go:200-205 | what is found is always a well-formed decimal once its commas are gone |
| Amounts.CutIsRead | gateway/internal/sheets/client.go:194-210 | a text cut at its first number is read as that number, rounded, or as blank if out of range |
| Amounts.EveryTextIsCut | gateway/internal/sheets/client.go:194-203 | every text with a digit has such a cut, so this says what every text is read as |
| Amounts.AmountRoundTrip | gateway/internal/sheets/client.go:196-210 | a decimal, its whole part comma-grouped or not, with optional sign and fraction, behind a digit-free text and before any text that does not continue it, is read as exactly that number, rounded, or as blank if out of range |
| Amounts.NoAmount | gateway/internal/sheets/client.go:199-203 | text without a digit gives the blank cell |
| Decimals.GroupedReadsBack | gateway/internal/sheets/client.go:204-205 | removing the commas of a grouped number leaves that number |
| A1.A1RoundTrip | gateway/internal/sheets/client.go:670-673 | a reader that knows about quotes recovers every tab name and range |
| A1.A1RangeInjective | gateway/internal/sheets/client.go:670-673 | different tabs or ranges never give the same range string |
| A1.GroupFollowsFirstPair | gateway/internal/sheets/client.go:522 | the pattern captures the digits after the first letter A-Z that a digit follows |
| A1.RowNumberAt | gateway/internal/sheets/client.go:512-527 | any range gives the number behind the first letter A-Z that a digit follows, saturating |
| A1.NoRowNumber | gateway/internal/sheets/client.go:522-525 | and 0 if there is none |
| A1.RowAfterPrefix | gateway/internal/sheets/client.go:512-527 | after a prefix without such a pair the row number comes back, saturating at the largest int |
| A1.RowNumberExactly | gateway/internal/sheets/client.go:510-527 | every row number comes back from the quoted range A{n}:D{n} if and only if the tab name has no letter A-Z directly followed by a digit |
| Dates.NextDayAddsOne | gateway/internal/sheets/client.go:178-192 | the next calendar day is one more, across months, years and leap days |
| Dates.ValidExactly | gateway/internal/sheets/client.go:185-186 | which year, month and day make a date, month by month, in common and leap years |
| Dates.DayNumberIsMarchNumber | gateway/internal/sheets/client.go:178-192 | the day number is that of a closed form on years starting in March, which mentions neither month lengths nor leap years |
| Dates.DateSerialIs | gateway/internal/sheets/client.go:183-192 | the serial of every date in one formula, pinned at 106751 either way |
| Dates.DayNumbersOrdered | gateway/internal/sheets/client.go:178-192 | day numbers order dates, so distinct dates differ |
| Dates.SerialIsPinned | gateway/internal/sheets/client.go:191 | the serial is the day number, pinned at 106751 either way |
| Dates.DateSerialExactly | gateway/internal/sheets/client.go:183-192 | it is the exact day count if and only if within 106751 days of the epoch |
| Dates.SerialsOrdered | gateway/internal/sheets/client.go:183-192 | serials never decrease with the date, and within the limit the next day adds one and distinct dates differ |
| Dates.KnownDates | gateway/internal/sheets/auth_test.go:134-140 | the epoch is 0, and 24 June 2026 is 46197 |
| BuiltRows.BuiltIsExportable | gateway/internal/sheets/client.go:169-176 | every built row is one the export theorems speak about |
| BuiltRows.BuiltIsRecognisedExactly | gateway/internal/sheets/client.go:169-176 | a built row is recognised if and only if it comes back whole and neither type nor comments spell NaN |
| BuiltRows.CommentsMatter | gateway/internal/sheets/client.go:424-427 | if reads drop empty cells at the end, it is recognised if and only if the comments are not empty and nothing spells NaN |
| BuiltRows.TrimmedExactly | gateway/internal/sheets/client.go:424-427 | what dropping empty cells at the end leaves: all behind are empty, the last one left is not |
| BuiltRows.NoCommentsPilesUp | gateway/internal/sheets/client.go:424-427 | so there a row without comments is not bounded by the number of workers |
| BuiltRows.BuiltCells | gateway/internal/sheets/client.go:169-176 | the four columns in order: the day number, the type, exactly the number written in the price, rounded, the comments |
| BuiltRows.MatchIsSamePurchase | gateway/internal/sheets/client.go:360-362 | two exported purchases count as one if and only if day and rounded amount are equal and type and comments are equal as cells |
| BuiltRows.LawfulIsSatisfiable | gateway/internal/sheets/client.go:443-468 | the assumptions on float parsing and printing can be met, a NaN spelling included |

## Left out

- HTTP, JSON, multipart parsing, ffmpeg, whisper and the LLM: each call is an outcome supplied from outside (a value, or a failure with a message).
- `Exports` has all jobs export to one tab; a job that names another tab is not modelled there.
- The service account's JWT, the OAuth exchange and the token cache in `gateway/internal/sheets/auth.go`: a failed token fetch is a failed read or append.
- Row styling, dropdown and number-format requests after an append, and prompt texts: constant data; they write no cell that is compared.
- Tab and category caches, `DetectFormat`, `ClientIP`, CORS, configuration parsing and fence stripping: small checks whose models would only add easy members.
- float64 rounding of tokens, times and hours, which are exact here. An amount is rounded by a function of which only its laws are assumed.
- Memory weaker than sequential consistency: the code's unsynchronised field accesses are races under Go's memory model, and no claim is made about them there.
- `dateSerial` on other layouts than an already parsed calendar date, and its fall-back to today.
- `capitalize`: the category of a built row is taken as already capitalised.
- Strings are sequences of Unicode characters; byte strings that are not UTF-8 are not modelled.
- `StartCleanup` and `cleanup` tick at arbitrary times, any number of times, instead of at their intervals; `StartCleanup`'s stop signal is that no further tick happens.
- `Start` and the loop of `worker` are the `Receive`, `Exit` and `Work` steps of the transition system rather than methods: which ready channel a `select` picks is a choice of the schedule.
- The 30-second limit on waiting for workers at shutdown, and the process ending at any moment, losing what is in memory.
- `Job.Result` is a pointer to one record that is written once more when the extraction arrives; the model keeps it as a value and lets a poll that saw the pointer see the later write. `JobObjects` has one such record per job, so aliasing of results is not an issue it captures.
- JobObjects.JobQueue.ProcessJob: states the record and the store after an undisturbed call; its states in between, which others see, are those of the transition system. The export's effect on the tab is in `SheetClient` and `Exports`.
- The LLM retry loop of `Backoff` runs against outcomes fixed in advance; the error texts it wraps are not modelled.
- `len(row)` other than four: only rows that `BuildRow` builds are exported.
- Unbounded integers stand for `int` counters except where the code shifts, multiplies, adds to `maxRetries` or parses a number, which wrap or saturate at 64 bits.
