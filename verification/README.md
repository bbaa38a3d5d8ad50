# A verified model of the article service

This project models the articles API's cache-aside protocol, its resilience stack and its keyset
pagination, and proves what they keep. `dafny verify dfyconfig.toml` checks all of it.

## What is modelled

**The coherence protocol.** `Protocol` is one small-step transition system: any number of readers
and writers, interleaved at every await, over one MySQL table, one Redis and the row locks of the
compare-and-set statements. Any Redis command may fail before or after the server ran it, any entry
or lock may expire at any moment, any request may die at any step, a COMMIT may be applied and its
answer lost. History fields (which commit a writer made, which commits a value was loaded after)
decide nothing; they only let properties be stated. `Coherence` holds the inductive invariant.
`ListCache`, `DetailCache`, `OptimisticWrites` and `SingleFlight` draw the theorems from it, and
`Counterexamples` holds the concrete runs that show which hypotheses are needed.

**The programs.** `Cache`, `ReadPath`, `Session` and `WritePath` are the same code as classes with
fields updated in place: the cache with its three gates and its latch, the read path with its
polling loop and its `finally`, the after-commit queue, the transaction, and the three write
handlers. What Redis, MySQL and the clock answer are oracles, so a contract speaks of every fault
schedule. `ReadRefinement` and `WriteRefinement` prove that these programs take the steps of the
machine's readers and writers, so that the machine's theorems are about them.

**The resilience stack.** `Breaker` is the circuit breaker over a monotone clock, with reports that
may arrive late and in any state. `Permits` follows who holds its permits. `Guard` is breaker,
timeout and retry around one call, for every script of replies; `Policy` is the validated budget.

**Pagination and keys.** `Articles` and `Keyset` are the table, the list query and the page loader,
`CommittedWalk` a walk over a table in use;
`Numerals`, `Base64` and `Cursor` the cursor codec; `Keys` the cache-key strings.

## Where the code and its documentation disagree

- app/db/session.py:111-112 says that no write ever crosses two transactions because only reads
  retry. `update` reads its row again after the compare-and-set, through a retrying guarded read
  whose hook is `session.rollback`; a retry there undoes the write, and the request still answers
  200. `OptimisticWrites.AcknowledgedIsDurable` gives the exact condition, and
  `Counterexamples.RetriedRereadLosesTheWrite` the run.
- app/db/after_commit.py:3-7 and app/services/article_service.py:166-171 say that deferring the DEL
  past the commit keeps an old body from surviving in the cache. It narrows the race; a reader that
  loaded before the commit and stores after the DEL still wins it
  (`Counterexamples.OvertakenBodyStaysCached`), with no fault anywhere.
- app/services/article_service.py:231-235 promises 404 once the article is gone. The session sets
  no isolation level; under a repeated snapshot the answer is 409
  (`WriteRefinement.RepeatedSnapshotAnswersConflict`); `WriteRefinement.ConflictOrGone` says exactly
  when.
- app/cache/article_cache.py:152-153 says that a generation that could not be read is safe, because
  the reader builds a key nobody has written. A reader of an unset counter writes that same key, and
  an open breaker refuses the generation read without latching the request: if its reset interval
  ends before the lookup, the lookup is admitted as the probe and finds the old page
  (`Counterexamples.RefusedGenerationServesStalePage`, `Cache.RefusalDoesNotLatch`).
  `ListCache.ReadYourWrites` says exactly when.

## Model

| member | source | states |
|---|---|---|
| Coherence.InvStep | app/services/article_service.py:76-163 | every step of every request, fault, expiry and death keeps the invariant that ties cached entries, counters, row locks and pending writes to the commit log |
| Coherence.RunKeepsInv | app/services/article_service.py:76-163 | so every run from the empty system keeps it |
| Coherence.IdentityIsStable | app/repositories/article_repo.py:100-132 | an article's author and creation time never change and no row ever disappears, over all runs |
| ListCache.GenerationInvariant | app/services/article_service.py:107-134 | a page stored under generation g is the page of a database that holds every commit whose INCR returned a value up to g, whatever the order of the INCRs |
| ListCache.ReadYourWrites | app/cache/article_cache.py:149-216 | a list request that begins after a writer's INCR answers from a database that holds that write, whatever happens in between, if and only if it made no stale hit: its generation read unanswered, a later lookup answered, and at that moment a page under generation zero that was loaded before the writer's COMMIT |
| ListCache.LookupDecides | app/services/article_service.py:115-117 | a reader without a generation whose lookup is answered while generation zero holds a page answers with that page |
| ListCache.OlderIffLoadedBefore | app/services/article_service.py:125-130 | a cached value is older than a commit exactly when the load behind it came before that COMMIT in the run |
| ListCache.RunFromLoads | app/services/article_service.py:125-130 | every cached value was read by some request's load of its target |
| ListCache.GotFrom | app/services/article_service.py:107-134 | whatever a reader answers with is what its own load read, or what one of its answered lookups found under its key |
| ListCache.AnsweredGenerationIsFresh | app/services/article_service.py:108-119 | a generation that Redis answered makes the answer hold the write, hit or miss |
| ListCache.OwnLoadIsFresh | app/services/article_service.py:124-131 | a page the request loads itself holds the write, whatever became of its generation |
| ListCache.GenuineIffAnswered | app/cache/article_cache.py:149-168 | the history field behind these says exactly that the generation read was answered |
| Counterexamples.RefusedGenerationServesStalePage | app/cache/article_cache.py:149-168 | a held-back generation read followed by an answered lookup serves, after a create was acknowledged with both counters moved, the empty page from before it, stored by a reader with an answered generation |
| ListCache.StartsAfterRun | app/services/article_service.py:108-114 | a generation read from Redis after a moment is never older than the counter at that moment, over every continuation |
| ListCache.ForeignCommits | app/repositories/article_repo.py:46-49 | commits of other authors leave an author's window exactly as it was |
| ListCache.ForeignWritesKeepPages | app/cache/article_cache.py:201-212 | another author's write moves neither the generation of an author's window nor a page of it out of the cache |
| ListCache.MissedCommitsAreForeign | app/cache/keys.py:60-67 | when all counters have moved, only other authors' commits can be missing from a page under the current generation |
| ListCache.QuiescentRefinement | app/cache/keys.py:60-67 | when every commit has moved its counters, any page cached under the current generation equals the page the database answers now, untouched authors' pages included |
| DetailCache.BodyWasCommitted | app/services/article_service.py:86-90 | every cached body is a committed, then live version of that article, never a rolled-back one |
| DetailCache.CachedBodyIsLiveIff | app/services/article_service.py:76-94 | in every reachable state a cached body is the live row if and only if no commit after its load changed the article |
| DetailCache.StoredBodyIsLiveIff | app/services/article_service.py:86-90 | a SET leaves the live row in the cache if and only if no commit between its load and itself changed the article, cleared or not |
| DetailCache.StoredOnce | app/cache/article_cache.py:172-199 | every cached body was put there by a SET and has stayed in the cache since |
| DetailCache.DecidedAtStore | app/cache/article_cache.py:172-199 | whether a DEL has overtaken a body that a SET left in the cache is decided at that SET: later DELs remove what they overtake |
| DetailCache.SettledBodyIsLiveIff | app/db/session.py:125-133 | over every run: when all committed writes to an article have had their DEL, its cached body is the live row if and only if, at the SET that left it there, no DEL of a change its load had missed had already run |
| DetailCache.TimelyRunKeepsBodies | app/services/article_service.py:76-94 | in runs where no SET is overtaken by a DEL, no cached body misses a cleared change |
| DetailCache.SettledBodyIsLive | app/db/session.py:125-133 | in such runs a settled article is served as it is, and a deleted one not from the cache |
| Counterexamples.OvertakenBodyStaysCached | app/services/article_service.py:76-94 | without that hypothesis a faultless run leaves a deleted article cached after every invalidation is done |
| OptimisticWrites.EachWriteFollowsItsToken | app/repositories/article_repo.py:89-132 | each committed update or delete was allowed to its actor and applied to the live version whose `updated_at` is its token |
| OptimisticWrites.CommitInColumns | app/repositories/article_repo.py:63-132 | every commit column by column: an insert, update or delete holds its writer's title, body, id and author as the statement sets them, and leaves every other column as it was |
| OptimisticWrites.VersionsAdvance | app/repositories/article_repo.py:89-132 | along the log `updated_at` never goes back and a deleted row never changes again |
| OptimisticWrites.NoLostUpdate | app/services/article_service.py:146-150 | if two commits carried the same token for one article, the first of them left the row as it was |
| OptimisticWrites.DeletedForever | app/repositories/article_repo.py:115-132 | after a committed soft delete no commit touches the article and it stays deleted |
| OptimisticWrites.AcknowledgedIsDurable | app/services/article_service.py:136-163 | an acknowledged write is in the log, in full and once, if and only if its re-read was not retried; creates and deletes always are |
| OptimisticWrites.CommittedIff | app/db/session.py:125-132 | in every run the log holds a commit of a request if and only if it sent a COMMIT that no retry of its re-read preceded |
| OptimisticWrites.FailedWriteLeavesNothing | app/db/session.py:125-133 | a failed request holds no row, and has a commit only if it sent such a COMMIT; and then its answer was lost, or the request died after it, among its invalidations |
| OptimisticWrites.RowsAreHeld | app/repositories/article_repo.py:100-112 | in every reachable state each row lock belongs to a writer with a pending write to that row |
| OptimisticWrites.WritesIgnoreTheCache | app/services/article_service.py:136-191 | erasing every reader, cache entry and expiry from a run leaves the same commits, the same writer answers and the same invalidations |
| OptimisticWrites.FaultsOfRedisChangeNoWrite | app/services/article_service.py:165-184 | nor do the faults of the writers' own DELs and INCRs matter: runs that agree on the database steps leave the same log and the same verdict for every write |
| Counterexamples.RetriedRereadLosesTheWrite | app/resilience/retry.py:106-113 | a retried re-read after the compare-and-set yields an acknowledged update with no commit |
| SingleFlight.KeepsLocksIff | app/cache/article_cache.py:220-245 | a step keeps every winner's lock in Redis under its own name if and only if it is neither an unanswered claim that did not take the lock nor an expiry in use |
| SingleFlight.OrderlyRunKeepsLocks | app/cache/article_cache.py:220-245 | so every run of such steps does |
| SingleFlight.OneHolderStep | app/cache/article_cache.py:220-245 | from one holder per key, a step leads to two if and only if it is a claim on a key in use that is not answered or finds the lock gone |
| SingleFlight.OneHolderIff | app/cache/article_cache.py:220-245 | over every run, no key ever has two holders if and only if no step is such a claim |
| SingleFlight.AtMostOneHolder | app/cache/article_cache.py:220-245 | so in a run without such a claim at most one request holds the lock of a key, although a release names no owner |
| SingleFlight.OrderlyNeverDoubles | app/cache/article_cache.py:220-245 | claims that are answered or took the lock, and locks that do not expire in use, are enough for that |
| Counterexamples.ExpiryGivesTwoHolders | app/cache/article_cache.py:230-235 | an expiry in use gives two holders of one key |
| Counterexamples.LostClaimGivesTwoHolders | app/cache/article_cache.py:227-233 | so does a claim that never reached Redis |
| Counterexamples.ReleaseFreesAnothersLock | app/cache/article_cache.py:237-245 | after an expiry one winner's release frees the lock another is holding |
| Cache.ArticleCache.Live | app/cache/article_cache.py:67-79 | a command is sent exactly when the cache is on, the latch is open and the breaker admits; the breaker is asked only then |
| Cache.ArticleCache.Try | app/cache/article_cache.py:81-130 | keeps: no command after a failed one, at most one failure reported, every permit reported once unless an exception the cache does not catch passed through; what a held, failed, cut or answered command leaves of the breaker |
| Cache.ArticleCache.Read | app/cache/article_cache.py:116-147 | a miss, a closed gate and a failure all read as nothing cached |
| Cache.ArticleCache.Generations | app/cache/article_cache.py:149-168 | zero for a counter that is unset, refused or unreachable |
| Cache.ArticleCache.Claim | app/cache/article_cache.py:220-235 | won by the winner, and whenever the lock is refused or unreachable |
| Cache.ArticleCache.BumpGenerations | app/cache/article_cache.py:201-216 | the author's INCR is sent exactly when the global one was answered, under one permit and one report |
| Cache.LatchedMore | app/cache/article_cache.py:86-104 | the latch is closed exactly when a command failed, and no command follows it |
| Cache.RefusalDoesNotLatch | app/cache/article_cache.py:75-79 | under every breaker configuration a request can have its generation read held back and its lookup sent |
| ReadPath.ArticleService.AwaitLoader | app/services/article_service.py:208-220 | polls end with something found, a cancellation or the deadline, and never before; a pause before every poll, at least one poll, and no more of them than fit before the deadline |
| ReadPath.ArticleService.LoadThrough | app/services/article_service.py:86-94 | loads once, stores what it loaded and, on every exit, a winner releases |
| ReadPath.ArticleService.Get | app/services/article_service.py:68-94 | the whole detail read, event by event, for every answer of Redis and the database; a loser queries the database only after a poll it could not parse, or once the lock timeout has passed |
| ReadPath.ArticleService.ListArticles | app/services/article_service.py:96-134 | the whole list read, under a key that carries the generation read first; a loser waits in the same way |
| ReadPath.ReadIsHonest | app/services/article_service.py:75-94 | what a read answers is what Redis gave for its key or what its one load gave; a failure of Redis never reaches the caller, and only a cancellation or another exception the cache does not catch ends a read early |
| ReadPath.WritesStoreTheLoad | app/services/article_service.py:125-131 | the cache is only filled under the read's own key, with what the read has just loaded |
| ReadPath.WinnersRelease | app/services/article_service.py:86-94 | every winner ends by trying to release, exceptions included; a loser never does |
| ReadPath.FailOpen | app/cache/article_cache.py:67-104 | when every command is refused or fails, the read is the uncached read: one load, its answer, no polling, at most one command sent |
| ReadPath.ListFailsOpen | app/services/article_service.py:107-134 | and so is the whole list read, at most one command sent with its generation read counted |
| ReadRefinement.MachineKeepsUp | app/services/article_service.py:75-94 | each event of the program, a cancelled winner's release included, is an enabled step of the machine's reader, in whatever state it meets and whether or not an unanswered command reached Redis |
| ReadRefinement.GenerationKeepsUp | app/services/article_service.py:108-114 | the generation in the program's key is the one the machine's reader takes |
| ReadRefinement.ReadIsARun | app/services/article_service.py:75-134 | every read, in any environment, is a run of the machine's reader, and one not cut short ends with the same answer |
| Session.AfterCommit.Drain | app/db/after_commit.py:45-59 | empties the queue and runs every callback in order, those behind a raising one included; only a cancellation stops it |
| Session.EveryTaskIsTried | app/services/article_service.py:179-184 | each queued write has its DEL tried, then, unless the DEL raised, the global INCR and its author's, before the next write's turn |
| Session.Transaction.Close | app/db/session.py:125-133 | commit then queue on success; on any failure a rollback, an empty queue and not one cache command |
| WritePath.Repository.Get | app/resilience/guard.py:101-117 | a guarded read shows the live row it last saw, and drops the session's own write exactly when it rolled back between attempts, which it does whenever it makes a second one |
| WritePath.Repository.Cas | app/repositories/article_repo.py:88-132 | one statement, never retried: it matches exactly the live row under the token, and leaves the transaction a version of its own exactly when a column changed |
| WritePath.ArticleService.Create | app/services/article_service.py:59-66 | the author is the actor, and only the list counters are queued |
| WritePath.ArticleService.ConflictOrNotFound | app/services/article_service.py:231-241 | 409 exactly when the second look finds the article live |
| WritePath.ArticleService.Modify | app/services/article_service.py:136-163 | for each answer, what the statements saw, what is pending and what is queued |
| WritePath.ArticleService.Handle | app/db/session.py:125-133 | success: the actor is the author or an admin, the row is committed with the request's title and body (unless the re-read was retried) and shown when a column changed, then the article's body and its author's counters are invalidated, before the response; failure: no invalidation, and nothing committed unless the COMMIT's answer was lost |
| WriteRefinement.HandlerKeepsUp | app/services/article_service.py:136-163 | an acknowledged update or delete takes the machine's writer to the same commit |
| WriteRefinement.CreateKeepsUp | app/services/article_service.py:59-66 | so does an acknowledged create |
| WriteRefinement.FailureKeepsUp | app/services/article_service.py:140-153 | a handler that fails is a failed writer of the machine without a commit: 403, 409 and 404 by the machine's own steps, an error or a cancellation by dying at any step |
| WriteRefinement.CommitFailureKeepsUp | app/db/session.py:127-132 | a failed COMMIT is a failed writer too, with its commit in the log exactly when the server applied it |
| WriteRefinement.DrainKeepsUp | app/services/article_service.py:179-184 | the drained queue takes the machine's writer to its answer, with a counter moved exactly when the server ran its INCR |
| WriteRefinement.ConflictOrGone | app/services/article_service.py:231-241 | 404 if and only if the second look sees a deletion; 409 for an article already gone at the compare-and-set if and only if its deletion is one that the UPDATE saw and the second look did not, so never when the look sees at least as much, and always 409 when it sees the first snapshot again |
| WriteRefinement.RepeatedSnapshotAnswersConflict | app/db/session.py:55-72 | a reachable state in which an article deleted before the compare-and-set is answered 409, its two SELECTs seeing the same earlier state of the database |
| Breaker.CircuitBreaker.Allow | app/resilience/breaker.py:66-82 | the admission and the whole new state |
| Breaker.CircuitBreaker.RecordSuccess | app/resilience/breaker.py:84-91 | the whole new state, late successes in any state included |
| Breaker.CircuitBreaker.RecordFailure | app/resilience/breaker.py:93-101 | the whole new state, late failures in any state included |
| Breaker.CircuitBreaker.RetryAfter | app/resilience/breaker.py:103-113 | the wait is zero exactly when the circuit is not open; an untouched open circuit admits whoever waits it out and, above the least wait, nobody sooner |
| Breaker.CoreStaysOk | app/resilience/breaker.py:66-131 | over every history: failures below the threshold, and probes between one and the quota exactly while half-open |
| Breaker.ClosedIffFewFailures | app/resilience/breaker.py:90-101 | the breaker has never left closed if and only if no run of consecutive failures has reached the threshold, and then its counter is the length of the current run |
| Breaker.ClosedIff | app/resilience/breaker.py:84-101 | in every history the breaker is closed if and only if, since the start or since some success reported half-open, there never were `threshold` failures in a row |
| Breaker.SuccessRecovers | app/resilience/breaker.py:84-91 | a success reported half-open closes the circuit: from then on every call is admitted at any time, up to and not beyond `threshold` failures in a row |
| Breaker.OpensAtFailure | app/resilience/breaker.py:115-120 | only a failure opens the circuit, and the interval starts with it |
| Breaker.OpenRefuses | app/resilience/breaker.py:75-77 | until the interval is over an open circuit admits nobody, whatever late reports come in, successes among them |
| Breaker.QuotaIsAdmitted | app/resilience/breaker.py:78-82 | after the interval, calls that come before any report are admitted exactly up to the quota |
| Breaker.FailureReopens | app/resilience/breaker.py:96-98 | a failure reported half-open opens the circuit again, from that moment |
| Breaker.FailuresAreTheStreak | app/resilience/breaker.py:90-120 | in every history, from any mode, the counter is the number of failures since the last success or opening |
| Breaker.EntriesAreSpaced | app/resilience/breaker.py:75-78 | while every report is a failure, half-open is entered at most once per reset interval, late reports included |
| Breaker.EntriesAdmitFew | app/resilience/breaker.py:79-82 | each entry admits at most the quota |
| Breaker.FailingDependencyRate | app/resilience/breaker.py:66-131 | if every report after an opening is a failure, at most quota times floor(T / reset) calls are admitted in the next T seconds |
| Breaker.HonestRetryAfter | app/api/errors.py:72-81 | a refusal's header is at least one and at least the wait, also half-open; whoever waits that long before an untouched open circuit is admitted |
| Breaker.HeaderIsLeast | app/api/errors.py:72-81 | the header is the least whole number of seconds that is at least one and at least the wait |
| Permits.PlayKeepsEpoch | app/resilience/guard.py:57-98 | if no call vanishes, every permit of a half-open epoch is still out |
| Permits.NeverStuck | app/resilience/breaker.py:73-101 | so a half-open breaker always awaits a report, and any report moves it on |
| Permits.StuckIffJammed | app/resilience/breaker.py:73-82 | a half-open breaker can still leave that state if and only if a probe is left or a report is due |
| Permits.JammedForever | app/resilience/breaker.py:79-80 | otherwise no later call is ever admitted |
| Permits.CancelledProbesJam | app/resilience/guard.py:77-97 | under every configuration cancelled probes can bring the breaker there |
| Guard.WithRetry | app/resilience/retry.py:102-125 | the calls form one finished retry loop, and the outcome is that of the last reply |
| Guard.GuardedCall | app/resilience/guard.py:57-98 | a refused caller awaits nothing; an admitted one runs one loop and reports exactly once, by its outcome |
| Guard.PathCounts | app/resilience/retry.py:106-111 | operations and rollbacks are bounded by the pauses between attempts |
| Guard.PathIsForced | app/resilience/retry.py:106-113 | the loop has no choice: the replies determine the calls |
| Guard.EveryRetryRollsBack | app/resilience/retry.py:106-111 | with a hook every operation after the first follows an answered rollback, and every rollback a pause; a pause follows a transient fault |
| Guard.FaultsAreRetried | app/resilience/retry.py:106-121 | a transient fault is the last word only when the attempts are used up; and there are as many rollbacks as repeated operations, at least |
| Guard.GuardTrace | app/resilience/guard.py:57-98 | for every script of replies: a write runs its operation once and nothing else, a read at most `attempts` times with rollbacks only between; each last reply has its own outcome, and a failure is reported exactly for timeouts and unavailability, nothing exactly for a cancellation |
| Policy.ClosedForm | app/resilience/policy.py:30-36 | the worst-case backoff equals base(2^m - 1) + (n - m)cap at the crossover index m |
| Policy.AcceptedIff | app/resilience/policy.py:44-140 | exactly which settings are accepted, and the two policies they become |
| Policy.RejectionNamesTheFault | app/resilience/policy.py:49-125 | a rejection names a variable that is at fault |
| Policy.CeilingsGrow | app/resilience/policy.py:30-36 | it grows strictly with the attempts |
| Policy.BackoffFitsTheTimeout | app/resilience/policy.py:96-125 | for accepted settings, any waits the jitter can draw sum to less than the call timeout |
| Policy.FewerAttemptsFit | app/resilience/policy.py:118-125 | accepted settings stay accepted with fewer attempts |
| Policy.AcceptedAttempts | app/resilience/policy.py:118-125 | an attempt count is accepted if and only if the closed form is below the timeout |
| Articles.SortedIsUnique | app/repositories/article_repo.py:56-56 | a set of rows has exactly one order under created_at DESC, id DESC |
| Articles.UpdateInColumns | app/repositories/article_repo.py:100-109 | an update sets title and body, and `updated_at` exactly when that changes anything, and nothing else |
| Articles.DeleteInColumns | app/repositories/article_repo.py:119-128 | a soft delete sets `deleted_at` and `updated_at`, and nothing else |
| Keyset.PageShape | app/services/article_service.py:201-206 | a page is the first `limit` matching rows in order, and has a successor exactly when more rows match |
| Keyset.ShownInColumns | app/repositories/article_repo.py:45-56 | every summary shown is that of a row that is not deleted, in the author's scope and strictly older than the cursor, column by column |
| Keyset.EligibleIsShown | app/services/article_service.py:193-206 | every such row is shown, or strictly older than the page's `next` |
| Keyset.PageInColumns | app/services/article_service.py:201-206 | newest first; at most `limit` rows; `next` is the last row of a full page, and there only if some row of the window is older |
| Keyset.NextWindow | app/services/article_service.py:201-206 | the rows past `next` are exactly the rest of the window, in the same order |
| Keyset.WalkDescends | app/repositories/article_repo.py:45-56 | over a table that changes between pages, the positions shown strictly decrease: no row twice |
| Keyset.WalkMissesNothing | app/repositories/article_repo.py:45-56 | a finished walk shows every row that was live in the window at every page |
| CommittedWalk.RunWalkMissesNothing | app/repositories/article_repo.py:45-56 | over every run of the service, a finished walk shows each row that is in the window when its first page is drawn and still live when its last one is |
| CommittedWalk.DeletedIsNeverListed | app/repositories/article_repo.py:45-56 | over every run, no page of the table lists an article once its soft delete is committed |
| CommittedWalk.ReadYourDelete | app/cache/article_cache.py:149-216 | a list request that begins after a delete moved its counters does not show the article, unless it made a stale hit |
| Keyset.WalkIsExact | app/services/article_service.py:193-206 | over a still table the walk ends, its pages concatenate to the sorted live rows, their number is the ceiling of rows / limit, and no page of a non-empty window is empty |
| Numerals.PrintIsInjective | app/cache/keys.py:54-57 | printed integers, negative ones included, differ when the integers do |
| Numerals.Notation | app/cache/keys.py:54-57 | decimal digits, most significant first, after a sign if negative |
| Base64.DecodePadded | app/api/pagination.py:32-33 | the lenient decoder undoes the padded encoding of sections 3.2 and 5 of RFC 4648, from any quad boundary |
| Base64.PaddingIsRecovered | app/api/pagination.py:27-32 | the padding the decoder adds is the padding the encoder stripped |
| Base64.RoundTrip | app/api/pagination.py:27-33 | decoding the unpadded encoding gives the bytes back |
| Base64.Alphabet | app/api/pagination.py:27-27 | the letters are those of table 2 in section 5 of RFC 4648 |
| Base64.QuadIsTheNumber | app/api/pagination.py:27-27 | three bytes and their four letters are the same 24-bit number |
| Base64.ListedEncodings | app/api/pagination.py:27-27 | four of the encodings listed in section 10 of RFC 4648, without padding |
| Base64.JunkIsSkipped | app/api/pagination.py:33-33 | the decoder takes both alphabets and skips characters of neither |
| Base64.LoneLetterIsMalformed | app/api/pagination.py:32-40 | a single letter decodes to nothing |
| Cursor.MicrosOfSince | app/api/pagination.py:24-25 | days, seconds and microseconds of a difference recombine to it, before the epoch too |
| Cursor.CursorRoundTrip | app/api/pagination.py:23-41 | a cursor of a representable time decodes to the same pair if and only if the time is not before 1970 and the id is positive and printable; otherwise it is rejected |
| Cursor.TextIsAcceptedIff | app/api/pagination.py:33-39 | exactly which texts are accepted and as what: digits on both sides of the first colon, the second number not zero |
| Cursor.TextWithoutColon | app/api/pagination.py:33-35 | without a colon none is |
| Cursor.FirstCursor | app/api/pagination.py:23-27 | the cursor of the epoch and article 1, in full |
| Cursor.CursorIsInjective | app/api/pagination.py:23-27 | different positions have different cursors |
| Cursor.AcceptedCursorIsCanonicalizable | app/api/pagination.py:30-41 | any accepted cursor, sloppy ones included, re-encodes to one that decodes to the same pair |
| Keys.MaterialIsInjective | app/cache/keys.py:52-57 | the digest's input determines limit and position |
| Keys.ListKeysCoincide | app/cache/keys.py:60-67 | two list keys are equal if and only if generation and author agree and the digests of the windows do |
| Keys.ListKeyIsInjective | app/cache/keys.py:60-67 | so, unless two windows' digests collide, equal keys mean the same page |
| Keys.CursorPartsAreInjective | app/cache/keys.py:70-78 | different positions have different integer pairs |
| Keys.NamespacesAreDisjoint | app/cache/keys.py:25-67 | body, page, counter and lock keys never coincide |
| Keys.KeysAreInjective | app/cache/keys.py:25-42 | within a namespace different arguments give different keys |
| Keys.PlainKeysInFull | app/cache/keys.py:25-42 | the keys of one article, its lock and one counter of each kind, in full |
| Keys.FirstPageKey | app/cache/keys.py:45-67 | the key of a first page, in full but for its digest |
| Keys.LaterPageKey | app/cache/keys.py:45-67 | the key of an author's later page, in full but for its digest |
| Keys.KeyTextIsInjective | app/cache/keys.py:25-67 | the machine's abstract keys are printed, and locked, injectively |

## Left out

- HTTP plumbing, authentication, metrics, tracing, logging and health probes: thin wrappers over libraries.
- JSON and ISO-8601 bodies: a cached value is the abstract page or article, or one that cannot be parsed and counts as a miss.
- TTL lengths and their jitter: any entry and any lock may expire at any time.
- A command that the server runs long after its caller gave up on it: in the machine a failed command runs at once or never.
- Redis losing or resetting a counter, and corrupt counter values: counters only grow.
- SHA-256: `Keys.ListKeyIsInjective` assumes that the two windows' digests do not collide.
- Breaker and latch inside the machine: there they are over-approximated by commands that may fail to run at any time; `Cache` and `Breaker` prove what they do.
- The breaker registry (app/resilience/breaker.py:139-155): a dictionary filled on first use.
- Cursors beyond the last representable datetime: `DecodeCursor` answers `TooLate` where the code lets an OverflowError through.
- ReadPath.ArticleService.Get: a cancellation is delivered while waiting on Redis or the database, not during the polling pause, where it does nothing but end the request.
- SingleFlight.AtMostOneHolder: assumes that no claim on a key in use goes unanswered or finds the lock gone; `SingleFlight.OneHolderIff` shows that this is exactly when it holds, and `Counterexamples.ExpiryGivesTwoHolders` and `Counterexamples.LostClaimGivesTwoHolders` are runs without it.
- DetailCache.SettledBodyIsLive: holds for runs without an overtaken SET; `DetailCache.SettledBodyIsLiveIff` is the exact condition and `Counterexamples.OvertakenBodyStaysCached` the run that fails it.
- Permits.NeverStuck: assumes that no call is cancelled; `Permits.CancelledProbesJam` shows why.
- `updated_at` is assumed to advance whenever a statement changes a column of a row, as MySQL's clock does; an identical rewrite leaves it alone.
- Which snapshot a writer's first SELECT sees is left open: any earlier committed prefix.
- The list limit is at least one, as app/api/routers/articles.py:48 requires.
- Real numbers stand for the floating-point clock and delays.
