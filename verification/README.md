# Coordination core of py_common, modelled and proved in Dafny

This project models the parts of `py_common` whose guarantees span many steps, many clients or several
functions, and proves what those parts are for. Verify it with `dafny verify dfyconfig.toml`.

| files | what they model |
|---|---|
| `responses.dfy`, `idempotency.dfy` | the Idempotency-Key middleware: what it records of a response and replays, and the protocol of SET NX, GET, handler, SET or DEL, with any number of requests on one key, failing commands, cancellation and expiry |
| `rate_limits.dfy`, `sliding_window.dfy`, `fixed_window.dfy`, `memory_limiter.dfy` | the three rate limiters |
| `lock.dfy`, `cached.dfy`, `cache_lock.dfy` | the token-checked lock with auto-extend, cache-aside with stampede protection on an abstract lock, and the refinement that puts it on the Redis lock |
| `requirements.dfy` | authorization requirements: `check`, `\|`, `&`, `describe`, and a reader for the printed rules |
| `bits.dfy`, `snowflake.dfy`, `worker.dfy`, `uuid7.dfy` | Snowflake ids in one process and across a pool, and UUIDv7 (sections 5.7 and 6.2, Method 1, of RFC 9562) |
| `cursor.dfy`, `pagination.dfy` | the pagination cursor (base64url, sections 4 and 5 of RFC 4648) and offset and keyset pages |
| `fakes.dfy` | the in-memory repository and its multi-key sort |
| `circuit_breaker.dfy` | the circuit breaker with overlapping calls and late reports |
| `redact.dfy` | redaction of query parameters and span attributes |
| `text.dfy`, `wrappers.dfy` | decimal numerals, ASCII case, Option and Result |

How the concurrent parts are stated. Each protocol is a state machine: a `World`, one `Event` for each
atomic step (one Redis command, one Lua script, one await), and `Run` over any sequence of events, so a
theorem about `Run` is about every interleaving of any number of clients. A command may fail with or
without having taken effect, a key may vanish, a clock may step, a task may be cancelled. The classes
hold the same state in fields; their methods follow the code branch by branch, hand control to `others`
where the code awaits, and are proved to perform exactly a run of that state machine. Each
method's contract names those events as a function of its arguments and the old state. So what is proved of
all runs is proved of what the methods do.

Where the code and its own documentation or the intended guarantee differ, the code is modelled as it is:

- The idempotency protocol lets two handlers run when the record goes away under someone who uses it, by
  expiry or by another request's unconditional DEL. `CalmIsExact` says which steps these are, and that
  there are no others.
- A request is told "still in progress" with nobody in progress, until the marker expires, after the request
  that set the marker was cancelled or its last command was lost. `OrphanIsExact` says which steps do that.
- The fixed window lets at most `2 * times - 1` hits through in one window length, one fewer than
  its documentation says, and that bound is reached.
- Auto-extend keeps the lock in all runs exactly if each reply time and the next request time together stay
  under half a TTL; calls that each take under half a TTL are not enough to keep a second client out.
- `Cache.get` returns the internal decode-failed sentinel, not None, exactly for an undecodable entry.
- `get_or_set` runs a factory that itself raises `LockAcquireError` a second time.
- On an integer column a cursor whose key is JSON's `Infinity` fails with OverflowError, one nested too deeply
  for `json.loads` with RecursionError, and one whose key is outside the column's range with the driver's own
  error when the query runs, not with the documented ValueError. `FailsAsDocumented` states when each happens.
- A Snowflake call cut off while it waits for the next millisecond leaves the sequence at 0; a call at
  that millisecond then issues an id that was issued before.
- A pool child that inherits a set `_ids_configured` keeps its parent's generator and repeats its ids.
- A call cancelled inside `AsyncCircuitBreaker.call` is never reported: a half-open breaker all of
  whose probes are cancelled rejects every call until someone calls `reset`. `async with` reports it.
- `AsyncCircuitBreaker.reset` on a closed breaker does not clear its failure count.
- Names with spaces or brackets do not print faithfully, and can make two different requirements print alike.

## Model

| member | source | states |
|---|---|---|
| Idempotency.AtMostOneHandler | src/py_common/http/middleware/idempotency.py:134-151 | with `fail_open` off, in every run in which no record goes away under a user of it, at most one handler is in flight and the record is then its own in-flight marker |
| Idempotency.DoneIsFinal | src/py_common/http/middleware/idempotency.py:225-235 | in such a run, once a done record is stored nothing changes it, no handler runs again for the key and no further run completes, until it expires |
| Idempotency.RecordsExactly | src/py_common/http/middleware/idempotency.py:219-233 | a running request whose handler returns goes on to SET status, headers and whole body of what was sent if and only if the status is below 500 and the body within the limit, and to DEL otherwise |
| Idempotency.RecordedIsReplayed | src/py_common/http/middleware/idempotency.py:155-183 | from any world of a calm run with a recordable response being saved: once its SET applies, until expiry, every request that then arrives and whose commands get through ends, if it ends, replayed with that status and body for an equal fingerprint, and with a 409 for another body otherwise |
| Idempotency.CalmIsExact | src/py_common/http/middleware/idempotency.py:145-149 | a step keeps the guarantee (at most one handler, its record its own marker) in all ordinary continuations if and only if it is not an expiry under an active or losing request nor a release between a loser's SET NX and its GET |
| Idempotency.RaceBreaksIt | src/py_common/http/middleware/idempotency.py:237-241 | after any of those steps, three ordinary steps break the guarantee: two handlers, or a handler whose record is not its own marker |
| Idempotency.LoserRace | src/py_common/http/middleware/idempotency.py:145-149 | when a loser of SET NX finds the record gone, three ordinary steps have it and a newcomer run the handler at once |
| Idempotency.ReplaysAreHonest | src/py_common/http/middleware/idempotency.py:155-183 | in every run at all, a replayed response is the replay of some completed run with an equal fingerprint, status below 500 and whole body within the limit; so no 5xx or truncated response is replayed |
| Idempotency.ConflictsAreReal | src/py_common/http/middleware/idempotency.py:163-181 | in every run, a 409 for another body has a request with another fingerprint behind it, a 409 for being in progress another request with the same one, at work or not |
| Idempotency.OrphanIsExact | src/py_common/http/middleware/idempotency.py:211-241 | in every run, races and expiry included, a marker loses the request at work on it in exactly these ways: that request is cancelled, its DEL or SET does not take effect, or its SET NX does but fails for its caller |
| Idempotency.InProgressIsReal | src/py_common/http/middleware/idempotency.py:173-181 | in every run without those, a request told that one is still in progress is told so while another with the same body is at work on the key |
| Idempotency.NobodyInProgress | src/py_common/http/middleware/idempotency.py:173-181 | each of those ways has its run, after which nobody is at work and every request with that body is told that one is still in progress, until the marker expires |
| Idempotency.IdempotencyMiddleware.Claim | src/py_common/http/middleware/idempotency.py:134-151 | `_claim` performs SET NX, everyone else's steps, then GET if it lost, with the RedisError branch of `__call__`, and leaves the request running, passing through or answered |
| Idempotency.IdempotencyMiddleware.RunAndRecord | src/py_common/http/middleware/idempotency.py:185-235 | `_run_and_record` performs the handler's end, everyone else's steps and then exactly one DEL or SET (a cancelled handler does neither), and the request ends in the handler's own outcome |
| Idempotency.IdempotencyMiddleware.PassOrReturn | src/py_common/http/middleware/idempotency.py:107-121 | the branches that record nothing leave the record alone |
| Idempotency.IdempotencyMiddleware.Call | src/py_common/http/middleware/idempotency.py:84-123 | one request with a key, whatever others do between its awaits, is a run of the protocol and ends finished |
| Idempotency.ClaimEnds | src/py_common/http/middleware/idempotency.py:101-151 | how a claim ends: running, passing through, 503 or answered, by what its commands and the record are |
| Idempotency.RunLeaves | src/py_common/http/middleware/idempotency.py:185-241 | what is in the key after a handler end and its last command, and what its own caller gets |
| Responses.RecordedIsSent | src/py_common/http/middleware/idempotency.py:193-209 | the recording is marked too large exactly when the whole body is over the limit, and otherwise holds status, headers and whole body of what was sent |
| Responses.ResponseRecorder.Send | src/py_common/http/middleware/idempotency.py:198-209 | one call of `send_wrapper` updates the four closure variables as the recording function says |
| Responses.ResponseRecorder.SendAll | src/py_common/http/middleware/idempotency.py:193-212 | after a response passed through, status, headers, size verdict and body are those of the messages sent |
| Responses.Latin1RoundTrip | src/py_common/http/middleware/idempotency.py:230 | every byte string survives being stored as text and encoded again |
| Responses.KeptExactly | src/py_common/http/middleware/idempotency.py:298-304 | every header outside content-length, date and server is kept as often as it was stored, and those not at all |
| Responses.KeptInOrder | src/py_common/http/middleware/idempotency.py:298-304 | header filtering distributes over concatenation, so kept headers stay in order |
| Responses.ReplayFaithful | src/py_common/http/middleware/idempotency.py:297-309 | a replay has the stored status and body, the stored headers but for the recomputed ones, one content-length that reads back as the length of the body, and the marker header |
| Responses.BufferBody | src/py_common/http/middleware/idempotency.py:268-294 | the buffered body is what an application reading the stream would have read, and the replayed stream reads as the same body |
| SlidingWindow.SlidingWindowKey.Hit | src/py_common/cache/rate_limit.py:44-67 | the Lua script, command by command, computes the script function of the key |
| SlidingWindow.ExpiryIsUnobservable | src/py_common/cache/rate_limit.py:51-66 | in every run, whenever Redis drops expired keys, the script's replies are those of a log that never expires nor forgets |
| SlidingWindow.ScriptKeepsTheLimit | src/py_common/cache/rate_limit.py:54-58 | in every run of the script, whenever Redis drops the key, every interval of one window length holds at most `limit` hits it allowed |
| SlidingWindow.ScriptResetIsExact | src/py_common/cache/rate_limit.py:60-66 | whenever a run of the script ends in a denial, `reset_ms` lies in 1..window, every try before that time is denied, and the next is allowed if and only if that time has come |
| SlidingWindow.ScriptResultIsTruthful | src/py_common/cache/rate_limit.py:207-225 | what the wrapper makes of the script's reply after any run: allowed exactly under the limit, `remaining` is the room left in the key, and the time reported after a denial is positive and at most one window |
| SlidingWindow.OutageIsExact | src/py_common/cache/rate_limit.py:212-225 | a failed script is raised exactly with `fail_open` off, and otherwise let through as degraded with everything remaining; a reply is never raised nor degraded and reports `times` as its limit |
| SlidingWindow.AllowedReset | src/py_common/cache/rate_limit.py:60-66 | after an allowed hit, whatever the key holds, the time reported is the whole window |
| SlidingWindow.AnyIntervalHoldsTheLimit | src/py_common/cache/rate_limit.py:54-58 | of the log the script stands for: every interval of one window length holds at most `limit` allowed hits |
| SlidingWindow.ResetOneHit | src/py_common/cache/rate_limit.py:60-66 | of that log: the reset time of a denial lies in 1..window, and one later try is allowed if and only if that time has passed |
| SlidingWindow.ResetIsExact | src/py_common/cache/rate_limit.py:41-43 | of that log: however many tries come before the reset time, all are denied and change nothing, and a try at that time is allowed |
| SlidingWindow.RetryAfterIsExact | src/py_common/cache/rate_limit.py:60-66 | of that log: the same for every denial that any run reaches |
| SlidingWindow.ResultIsTruthful | src/py_common/cache/rate_limit.py:207-225 | of that log: the wrapper's result for its reply is truthful in the same sense |
| FixedWindow.CounterKey.Hit | src/py_common/cache/rate_limit.py:32-39 | the Lua script computes the counter function of the key |
| FixedWindow.ResultIsTruthful | src/py_common/cache/rate_limit.py:182-188 | allowed as counted in runs; `remaining` is how many further hits are let through at once, however many come; the reset time is the first at which Redis may drop the key |
| FixedWindow.OutageIsExact | src/py_common/cache/rate_limit.py:172-180 | the same two answers to a failed script as in the sliding window; a reply is never raised nor degraded |
| FixedWindow.AlwaysAWait | src/py_common/cache/rate_limit.py:182 | the time reported is the TTL of the reply, the whole window if that is not positive, so never zero |
| FixedWindow.AnyWindowHoldsTwice | src/py_common/cache/rate_limit.py:156-161 | over every run, any interval of one window length lets at most 2 * times - 1 hits through |
| FixedWindow.TwiceIsReached | src/py_common/cache/rate_limit.py:156-161 | for every limit and window some run reaches that bound |
| MemoryLimiter.InMemoryRateLimiter.Hit | src/py_common/cache/rate_limit.py:241-258 | one hit stores the window, makes the key the newest, evicts the oldest keys and answers from that window |
| MemoryLimiter.InMemoryRateLimiter.EvictOldest | src/py_common/cache/rate_limit.py:250-251 | the eviction loop drops the oldest keys until at most `max_keys` are left |
| MemoryLimiter.AnswerIsTruthful | src/py_common/cache/rate_limit.py:243-258 | `remaining` is how many further hits are let through at once, however many come; a later hit starts a new window if and only if the reset time has passed |
| MemoryLimiter.HoldsTheMostRecent | src/py_common/cache/rate_limit.py:232-236 | after every history the map holds exactly the keys with fewer than `max_keys` other keys hit since, in the order of their last hits |
| MemoryLimiter.BoundIsUnobservable | src/py_common/cache/rate_limit.py:241-258 | the answer for a key equals the unbounded limiter's if at each of its hits fewer than `max_keys` other keys had come since the one before or its window had run out |
| MemoryLimiter.EvictionForgets | src/py_common/cache/rate_limit.py:250-251 | where that condition fails, the key starts a new window while the unbounded limiter goes on counting |
| MemoryLimiter.MemoryHitIsCounterHit | src/py_common/cache/rate_limit.py:243-257 | one in-memory hit is a run of the fixed-window counter, expiry included |
| MemoryLimiter.AllowedOnItsOwn | src/py_common/cache/rate_limit.py:241-258 | in every history of all keys, the hits of an undisturbed key are let through exactly as if there were no other keys |
| MemoryLimiter.AnyWindowHoldsTwice | src/py_common/cache/rate_limit.py:241-258 | in every history of all keys, the bounded limiter lets at most 2 * times - 1 hits through in one window length for a key that is not evicted inside its window |
| MemoryLimiter.KeysAreIndependent | src/py_common/cache/rate_limit.py:243-248 | without the bound, a key's window depends on its own hits only |
| Lock.MutualExclusion | src/py_common/cache/lock.py:88-103 | in every run two clients are both in the block only if one's TTL has run out since its last acquire or extend; the other owns the key |
| Lock.TokenChecked | src/py_common/cache/lock.py:107 | extend and release change the key only if it carries the caller's own token |
| Lock.WaitEndsExactly | src/py_common/cache/lock.py:94-96 | a wait ends in LockAcquireError exactly when it is given up, in the command's failure exactly when one fails, and in the block exactly when an acquire finds the key free |
| Lock.FailedExtendIsLast | src/py_common/cache/lock.py:40-49 | after an extend that failed or came too late, in every run, the client never asks for more time |
| Lock.ReleaseEndsExactly | src/py_common/cache/lock.py:104-113 | however the release fares the client leaves with its block's outcome, or cancelled; it stops owning the key, and the next waiting client gets in, exactly when the release takes effect |
| Lock.GoneForGood | src/py_common/cache/lock.py:102-113 | a client that has left and does not own the key never does again, in any run |
| Lock.DeadHolderExpires | src/py_common/cache/lock.py:78-79 | in every run a holder that never comes back blocks others for at most its TTL |
| Lock.ExtendedNeverLapses | src/py_common/cache/lock.py:30-49 | a client whose extends succeed before a TTL has passed owns the key as long as it is in the block, in every interleaving |
| Lock.AcquireStarts | src/py_common/cache/lock.py:94-100 | a client that finds the key free holds it for its TTL; the extend schedule starts exactly with `auto_extend`, and without it the client's time never grows in any run |
| Lock.ExtendScheduleIsExact | src/py_common/cache/lock.py:37-41 | a client extending half a TTL after each reply owns the key in all runs of that schedule, whatever other clients do, if and only if every reply time plus the next request time is under half a TTL |
| Lock.LateLetsIn | src/py_common/cache/lock.py:37-41 | for every schedule with a late call there is a run of it in which a second client is in the block, owning the key, while the first still is |
| Lock.QuarterIsEnough | src/py_common/cache/lock.py:80-81 | if all calls take under a quarter of the TTL, the client owns the key in every such run |
| Lock.HalfIsNotEnough | src/py_common/cache/lock.py:80-81 | for every TTL there is a run from the start, all calls under half the TTL, with two clients in the block at once |
| Lock.LockKey.AcquireLock | src/py_common/cache/lock.py:88-96 | acquisition performs exactly the attempts the state and the replies call for, and after winning holds the key under its token for one TTL |
| Lock.LockKey.RedisLock | src/py_common/cache/lock.py:66-113 | performs the acquisition and, if it succeeds, the block and one release as last step; the body's own outcome comes out, and an applied release leaves the key without this token |
| Lock.LockKey.HoldAndRelease | src/py_common/cache/lock.py:102-113 | the block and its `finally` perform exactly the body's events, its end, and the release |
| Cached.Agreement | src/py_common/cache/cached.py:176-240 | in every run, a returned value is the call's own factory's result or decodes a string once stored under the key; the factory runs at most twice, and twice only if its first run raised LockAcquireError |
| Cached.OnlyTheFactoryFails | src/py_common/cache/cached.py:176-209 | in every run a call that is not cancelled ends as its last run of the factory did, or, with no such run, with a value decoded from a string the key once held; Redis, lock and serializer never fail it |
| Cached.FirstLookupDecides | src/py_common/cache/cached.py:177-182 | a first look-up whose read gets through and whose entry decodes returns that value with no factory run, protected or not; any other goes on to the lock exactly if protected, and to the factory otherwise |
| Cached.WaitDecides | src/py_common/cache/cached.py:184-207 | a wait for the lock ends in the block exactly when an acquire gets through and finds it free, and in a computation without it exactly when it times out or the acquire fails |
| Cached.ComputedIsKept | src/py_common/cache/cached.py:129-141 | what a factory returned is in the entry exactly if it serializes and its store takes effect, with the lock or without, and the next look-up then returns it; a factory that raised leaves the entry alone |
| Cached.LeavingDecides | src/py_common/cache/cached.py:186-207 | leaving the lock block frees the lock exactly if it is still this call's and the release takes effect, never another's; the call then ends with its block's outcome, or computes without the lock |
| Cached.ComputesOnce | src/py_common/cache/cached.py:171-175 | while Redis stays up, no lock lapses, nobody times out and the entry is left alone, at every point of every run: one factory run at most for all callers, and every call that returned carries its value |
| Cached.EveryCallReturnsTheOneValue | src/py_common/cache/cached.py:171-175 | from every state of such a run: the calls begun can be run to their end; no run of theirs takes more effective steps than they have left; nothing can move if and only if all have returned; and all have returned if and only if the factory ran exactly once and every caller returned its value |
| CacheLock.RealLockRefines | src/py_common/cache/cached.py:184-209 | `get_or_set` on the Redis lock, a key with token and TTL, refines the cache model: every run of it is a run there, in which the lock goes away early only where the clock reaches the end of a holder's TTL or a cancelled call releases it |
| CacheLock.ComputesOnceOnLock | src/py_common/cache/cached.py:184-209 | so on the Redis lock, while no holder's TTL runs out and Redis stays up: at most one factory run for all callers at every point, every returned call carries its value, and once all have returned it ran exactly once |
| Cached.LeftFalls | src/py_common/cache/cached.py:176-209 | every step of such a run that changes anything brings its caller nearer to its end |
| Cached.HeldFailure | src/py_common/cache/cached.py:198-209 | a factory failing under the lock ends the call with its own error after one run, if and only if that error is not LockAcquireError |
| Cached.GetMatchesItsDocumentation | src/py_common/cache/cached.py:114-127 | `get` returns the value or None as documented exactly when it does not read an undecodable entry |
| Cached.CacheKey.ReadEntry | src/py_common/cache/cached.py:211-230 | a failed read, a missing entry and an undecodable one are misses; a stored None is a hit |
| Cached.CacheKey.ComputeAndStore | src/py_common/cache/cached.py:232-240 | performs exactly one factory run and, if it returned, one store; returns or raises what the factory did |
| Cached.CacheKey.EnterLock | src/py_common/cache/cached.py:185-191 | performs exactly the attempts that state and replies call for; ends inside the lock block, or without it after a timeout or a failing store, and never runs the factory |
| Cached.CacheKey.TryLock | src/py_common/cache/cached.py:185-191 | one attempt is one acquire of the protocol |
| Cached.CacheKey.UnderLock | src/py_common/cache/cached.py:192-197 | performs exactly the second look-up, the computation if and only if that missed, and the release; leaves the call finished unless the factory raised LockAcquireError |
| Cached.CacheKey.LookAgain | src/py_common/cache/cached.py:193-196 | the second look-up is one look-up of the protocol: on a hit the value is returned, on a miss the factory is due |
| Cached.CacheKey.LeaveLock | src/py_common/cache/lock.py:104-113 | the release is one unlock of the protocol, which frees only this call's own lock, and its failure changes nothing for the caller |
| Cached.CacheKey.ComputeLocked | src/py_common/cache/cached.py:184-209 | after a protected miss performs exactly the lock, its block, and a computation without it where those fell through |
| Cached.CacheKey.LookFirst | src/py_common/cache/cached.py:176-182 | one look-up decides: its hit is returned with no factory run; on a miss the lock is next exactly if the call is protected, and the factory otherwise |
| Cached.CacheKey.GetOrSet | src/py_common/cache/cached.py:162-209 | one `get_or_set`, whatever others do between its awaits, performs exactly the events that its arguments and the state determine and returns what they end in |
| Requirements.Flatten | src/py_common/security/requirements.py:63-75 | the loop computes the splicing function |
| Requirements.OrAndMeanOrAnd | src/py_common/security/requirements.py:56-61 | `\|` decides or, `&` decides and, for all operands, and both give well-formed requirements |
| Requirements.OrAndAssociate | src/py_common/security/requirements.py:64-67 | chains of one operator build the same flat tree however they are bracketed |
| Requirements.Monotone | src/py_common/security/requirements.py:143-173 | without Custom, adding roles or scopes never turns a pass into a denial |
| Requirements.PrintingPreservesMeaning | src/py_common/security/requirements.py:179-188 | for every Custom-free requirement with names free of spaces and brackets, the text reads back, with either operator binding tighter, as one rule that decides what `check` decides |
| Requirements.WrapShows | src/py_common/security/requirements.py:179-188 | looking for " OR " and " AND " in the text brackets exactly the parts that contain an operator |
| Requirements.SpacesMislead | src/py_common/security/requirements.py:93-97 | for all names, a role with " OR role:" in its name prints like two roles that decide differently |
| Requirements.OnlyCleanNamesPrint | src/py_common/security/requirements.py:93-97 | a requirement of any kind whose decision depends on a name with a space or a bracket never reads back as a rule that decides the same |
| Requirements.SingleNameIsExact | src/py_common/security/requirements.py:93-120 | a single role or scope reads back faithfully if and only if its name has no space or bracket |
| Bits.OrDisjoint | src/py_common/utils/snowflake.py:74-78 | or-ing a value into the bits a shift has cleared adds it, for negative left sides too |
| Bits.AndMask | src/py_common/utils/ids.py:57-68 | and-ing with a mask of k ones is the remainder modulo 2^k, for negative values too |
| Snowflake.LayoutDecodes | src/py_common/utils/snowflake.py:74-78 | time, worker and sequence read back from every id; it is a non-negative 63-bit number exactly while the offset fits 41 bits |
| Snowflake.LayoutOrder | src/py_common/utils/snowflake.py:74-78 | ids of one worker are ordered by millisecond, then sequence |
| Snowflake.MadeExactly | src/py_common/utils/snowflake.py:43-56 | a generator is made exactly for worker ids from 0 to 1023, with nothing issued, and ValueError is raised for any other |
| Snowflake.SnowflakeGenerator.NextIdLocked | src/py_common/utils/snowflake.py:58-78 | `next_id` computes the next-id function of state and clock readings |
| Snowflake.SnowflakeGenerator.WaitNextMs | src/py_common/utils/snowflake.py:80-85 | the wait loop returns the first reading past `last_ms`, and fails to only if there is none |
| Snowflake.IdsIncrease | src/py_common/utils/snowflake.py:58-78 | for every clock sequence, backward steps included, ids strictly increase and `_last_ms` is always the largest reading seen |
| Snowflake.WaitEnds | src/py_common/utils/snowflake.py:68-71 | a call waits only when the sequence overflows, and returns if and only if some reading passes `_last_ms` |
| Snowflake.CutOffIsExact | src/py_common/utils/snowflake.py:69-71 | after a wait that is cut off the next call issues a larger id if and only if its reading is past `_last_ms`, and otherwise the second id of that millisecond |
| Snowflake.CutOffRepeats | src/py_common/utils/snowflake.py:69-71 | for every worker, epoch and millisecond there is a run from a new generator that issues one id twice |
| Worker.WorkerProcess.EnsureSnowflakeId | src/py_common/worker/worker.py:159-180 | sets the process's generator and flag, or clears the generator and raises, as the pool function says |
| Worker.ConfiguresExactly | src/py_common/worker/worker.py:159-180 | a process gets a generator of its own, at its place in the base range, exactly if there is a base id, none was configured and the worker id is in range; out of range it is left without one and it raises; otherwise nothing changes |
| Worker.NoGeneratorNoId | src/py_common/utils/snowflake.py:103-115 | a process makes an id exactly if it has a generator, and raises otherwise |
| Worker.WarningIsExact | src/py_common/worker/worker.py:298-318 | the start-up warning is logged exactly when some index of the pool will be refused |
| Worker.PoolIdsAreUnique | src/py_common/worker/worker.py:159-180 | over a pool's whole life, with processes replaced at the same index by ones whose clock is past their predecessor's last millisecond, no id is made twice, and out-of-range processes make none |
| Worker.InheritedFlagCollides | src/py_common/worker/worker.py:161-162 | a child gets its own worker id if and only if it did not inherit the configured flag; otherwise it answers as its parent does, however many ids that made before |
| Worker.EarlyReplacementRepeats | src/py_common/utils/snowflake.py:55-56 | the condition on replacements is needed: one that reads its predecessor's millisecond repeats an id |
| Uuid7.Uuid7Globals.NewUuid7 | src/py_common/utils/ids.py:47-75 | `new_uuid7` computes the value function of the globals, the readings and the random bytes |
| Uuid7.Uuid7Globals.NextFields | src/py_common/utils/ids.py:56-70 | the part under the lock computes the next timestamp and counter |
| Uuid7.Uuid7Globals.WaitOther | src/py_common/utils/ids.py:62-65 | the busy loop ends at the first timestamp that differs from the last |
| Uuid7.FirstOther | src/py_common/utils/ids.py:62-65 | the timestamp waited for is that of the first reading that differs, and there is none only if all are the same |
| Uuid7.ReturnsExactly | src/py_common/utils/ids.py:56-70 | a call returns if and only if the counter does not overflow or some later reading has another timestamp |
| Uuid7.LayoutDecodes | src/py_common/utils/ids.py:73-74 | every value is a 128-bit number with version 7 and variant 10 whose timestamp and counter read back |
| Uuid7.OrderIsTheClocks | src/py_common/utils/ids.py:56-75 | of two consecutive values the second is larger if and only if its timestamp is not smaller, whatever the random bytes |
| Uuid7.ValuesIncrease | src/py_common/utils/ids.py:50-52 | while clock readings do not go back and fit 48 bits, values strictly increase over the whole run, counter overflow included |
| Text.DecimalRoundTrip | src/py_common/persistence/pagination.py:47-48 | `int(str(n))` is n for every int |
| Cursors.DecodeEncode | src/py_common/http/pagination.py:31-45 | the lenient base64 scanner gives back every byte string from its encoding |
| Cursors.PaddingRestored | src/py_common/http/pagination.py:34-42 | re-adding `-len % 4` equals signs restores exactly the padding `rstrip` removed |
| Cursors.DigitsDecodeExactly | src/py_common/http/pagination.py:37-42 | text of digits alone decodes, once padded, if and only if no single digit is left over |
| Cursors.JunkIsSkipped | src/py_common/http/pagination.py:37-42 | any character that is neither a digit of either alphabet nor padding may stand anywhere and changes nothing |
| Cursors.StandardDigits | src/py_common/http/pagination.py:37-42 | text in the standard alphabet decodes as the same text in the URL-safe one |
| Cursors.CursorRoundTrip | src/py_common/http/pagination.py:31-50 | for every byte string, the cursor decodes to it, no other byte string has that cursor, only the empty one has the empty cursor, and it is URL-safe |
| Cursors.KeySurvives | src/py_common/persistence/pagination.py:25-51 | every int key survives str, JSON, base64, decoding and `_coerce_key`, and its cursor is never empty |
| Cursors.CoercesTowardsZero | src/py_common/persistence/pagination.py:40-51 | a key that is a fraction counts as the integer next to it on the side of zero, a boolean as 1 or 0 |
| Cursors.EscapesExactly | src/py_common/http/pagination.py:37-50 | a cursor text fails otherwise than with ValueError if and only if it decodes to a payload that is nested too deeply for the JSON reader or whose key is an infinity |
| Cursors.PayloadEscapesExactly | src/py_common/http/pagination.py:31-50 | of the cursors of all byte strings, exactly those of such payloads do, and which of the two errors it is |
| Cursors.InfinityEscapes | src/py_common/persistence/pagination.py:49 | there is such a cursor with an infinity |
| Cursors.NestingEscapes | src/py_common/http/pagination.py:43-47 | and one of opening brackets, for every depth the JSON reader refuses |
| Pagination.RowsAre | src/py_common/persistence/pagination.py:144 | ORDER BY lists every key once, in order |
| Pagination.OrderIsUnique | src/py_common/persistence/pagination.py:132-135 | with unique keys there is only one such list |
| Pagination.SeekIsSuffix | src/py_common/persistence/pagination.py:146-151 | the rows past a key are the rest of the sorted rows, in both directions |
| Pagination.CursorPageHolds | src/py_common/persistence/pagination.py:142-173 | for every limit from 1 on a keyset page reports the smaller of limit and maximum, holds that many of the sorted rows past the cursor's key or all there are, and has more and a cursor for its last row exactly if further rows are selected |
| Pagination.OffsetPageIs | src/py_common/persistence/pagination.py:86-113 | the i-th offset page holds the i-th stretch of the sorted rows, is numbered i + 1, and has more exactly when the total says so |
| Pagination.OffsetPageHolds | src/py_common/persistence/pagination.py:86-113 | for every limit from 1 on the page reports the smaller of limit and maximum, holds that many of the sorted rows from the offset on or all there are, has more exactly if the table does, and the offset lies on the page it names |
| Pagination.OffsetFailsExactly | src/py_common/persistence/pagination.py:54-63 | an offset request fails, with ValueError, if and only if its limit is below 1 or its offset negative |
| Pagination.WalkOfUnchanging | src/py_common/persistence/pagination.py:142-173 | on an unchanging table n requests following `next_cursor` give the first n pages' rows of the sorted table and have ended exactly when those cover it |
| Pagination.StylesAgree | src/py_common/persistence/pagination.py:66-113 | on an unchanging table the two styles have read the same rows after any number of pages |
| Pagination.WalkIsStable | src/py_common/persistence/pagination.py:128-130 | with rows inserted and deleted between pages: no request fails, keys are strictly monotone, nothing repeats or is made up, and every row present throughout comes exactly once by the end |
| Pagination.WalkEnds | src/py_common/persistence/pagination.py:153-164 | on a bounded key range the walk ends, however the table changes, once its pages could hold the range |
| Pagination.OffsetRepeats | src/py_common/persistence/pagination.py:82-84 | one row inserted ahead of the reader makes the next offset page begin with the row the last one ended with, for every table and page |
| Pagination.FailsAsDocumented | src/py_common/persistence/pagination.py:140-154 | a request fails with another error than ValueError if and only if its limit is good and its non-empty cursor decodes to a payload that is nested too deeply, has an infinity as key, or has a key that `_coerce_key` takes and the database driver does not |
| Pagination.WideKeyEscapes | src/py_common/persistence/pagination.py:40-51 | there are such cursors whenever the column's range has an end: every key past it, on every table |
| Pagination.OwnCursorsWork | src/py_common/persistence/pagination.py:158-164 | a cursor handed out with a page is accepted on every later table |
| Fakes.SortByFields | src/py_common/testing/fakes.py:21-40 | the loop over the reversed fields computes the passes, and raises the error of the first failing pass |
| Fakes.PassesAreMultiKeySort | src/py_common/testing/fakes.py:32-40 | for any number of fields the result of the passes is the one permutation ordered lexicographically by all keys, each in its direction, with ties in original order |
| Fakes.PassInOrder | src/py_common/testing/fakes.py:32-34 | a stable pass over a list ordered by the later keys orders it by its own key and then those |
| Fakes.DirectionIs | src/py_common/testing/fakes.py:38-39 | one field "name" sorts no larger value before a smaller one, "-name" no smaller before a larger |
| Fakes.FailsExactly | src/py_common/testing/fakes.py:36-39 | sorting succeeds if and only if every field is text and every entity has every attribute |
| Fakes.InMemoryRepository.Create | src/py_common/testing/fakes.py:61-63 | stores the entity under its id, keeping the place of an id already there, or fails for a missing id attribute and changes nothing |
| Fakes.InMemoryRepository.Get | src/py_common/testing/fakes.py:65-66 | finds an id exactly when it is listed, and then the entity at its place in the listing |
| Fakes.FoundIsLastWrite | src/py_common/testing/fakes.py:61-86 | after any history of writes and removals an id is found as last written, or not at all if removed since, and is listed once exactly when found |
| Fakes.InMemoryRepository.Delete | src/py_common/testing/fakes.py:85-86 | removes exactly that id and says whether it was there |
| Fakes.InMemoryRepository.GetList | src/py_common/testing/fakes.py:68-79 | lists the stored entities, in insertion order or sorted by the given or default order, cut by the slice |
| Fakes.ListingHolds | src/py_common/testing/fakes.py:75-79 | a listing holds, in order, as many of the arranged entities from the offset on as the limit asks for, or all there are; a negative offset counts from the end |
| Fakes.ListingsJoin | src/py_common/testing/fakes.py:75-79 | consecutive listings are consecutive parts of one order |
| CircuitBreaker.AsyncCircuitBreaker.State | src/py_common/utils/circuit_breaker.py:60-67 | reading the state moves an open breaker to half-open once the timeout has passed, and changes nothing else |
| CircuitBreaker.AsyncCircuitBreaker.ChangeTo | src/py_common/utils/circuit_breaker.py:69-86 | the transition function, a no-op into the present state |
| CircuitBreaker.AsyncCircuitBreaker.Admit | src/py_common/utils/circuit_breaker.py:88-102 | `before_call` computes the admission function |
| CircuitBreaker.AsyncCircuitBreaker.Succeed | src/py_common/utils/circuit_breaker.py:104-109 | closes when half-open, otherwise clears the failure count |
| CircuitBreaker.AsyncCircuitBreaker.Fail | src/py_common/utils/circuit_breaker.py:111-118 | reopens when half-open, otherwise counts and opens at the threshold |
| CircuitBreaker.AsyncCircuitBreaker.Call | src/py_common/utils/circuit_breaker.py:120-128 | reports success or failure after whatever others did meanwhile, and nothing for a cancelled call |
| CircuitBreaker.AsyncCircuitBreaker.Block | src/py_common/utils/circuit_breaker.py:130-143 | the same for `async with`, which reports cancellation as a failure |
| CircuitBreaker.OpensAtThreshold | src/py_common/utils/circuit_breaker.py:111-118 | in every run a closed breaker opens at exactly the failure report that is the `failure_threshold`-th (at least the first) since the last success or since it closed |
| CircuitBreaker.HalfOpenEndsExactly | src/py_common/utils/circuit_breaker.py:104-118 | in every half-open world, full or not: it reopens, from that time, exactly by a failure of a call in flight (of a block, cancellation too), closes with no failures counted exactly by a success or `reset`, and nothing else ends it |
| CircuitBreaker.OpenEndsExactly | src/py_common/utils/circuit_breaker.py:60-67 | an open breaker becomes half-open exactly when someone looks or asks once the timeout has passed, closed exactly by `reset`; late reports move nothing |
| CircuitBreaker.AdmitsExactly | src/py_common/utils/circuit_breaker.py:88-102 | in every state, who is admitted: everyone when closed, by the timeout when open and by the probe count when half-open; a rejected call changes only what looking changes |
| CircuitBreaker.ReportsEndCalls | src/py_common/utils/circuit_breaker.py:120-143 | a report ends its own call and no other; a cancelled `call` leaves the breaker alone |
| CircuitBreaker.ShutForRecovery | src/py_common/utils/circuit_breaker.py:60-67 | from the report that opens the breaker, whatever reports come late, no call is admitted for `recovery_timeout`, and the next one is if and only if that has passed and probes are allowed |
| CircuitBreaker.ProbesAreBounded | src/py_common/utils/circuit_breaker.py:99-102 | in every run each half-open episode admits at most `half_open_max_calls` calls, and the next one exactly while there were fewer |
| CircuitBreaker.FullMovesOn | src/py_common/utils/circuit_breaker.py:94 | if every admission is reported, a full half-open breaker has one of its own probes in flight, whose report closes or reopens it |
| CircuitBreaker.StuckIsExact | src/py_common/utils/circuit_breaker.py:99-102 | a full half-open breaker can leave that state without `reset` if and only if some call is in flight, and otherwise rejects every call for good |
| CircuitBreaker.CancelledProbesJam | src/py_common/utils/circuit_breaker.py:122-126 | from a half-open breaker, probes cancelled inside `call` lead there; `async with` reopens instead |
| CircuitBreaker.JamFromStart | src/py_common/utils/circuit_breaker.py:120-128 | for every configuration that allows probes there is a run from a new breaker, without reset, after which every call is rejected for good |
| CircuitBreaker.ResetIsExact | src/py_common/utils/circuit_breaker.py:145-147 | `reset` closes the breaker, leaves a failure count of 0 if and only if it was not closed before or had none, and changes nothing if and only if it was closed |
| CircuitBreaker.ResetKeepsFailures | src/py_common/utils/circuit_breaker.py:145-147 | for every threshold above one: on a new breaker, failures one short of it, then `reset`, then one more failure open it |
| CircuitBreaker.ResetKeepsStreak | src/py_common/utils/circuit_breaker.py:145-147 | in every run, `reset` on a closed breaker leaves the failures since the last success or closing as they were |
| Redact.MatchIsExact | src/py_common/telemetry/redact.py:39-40 | the alternation matches exactly the listed names, in any case, up to the equals sign |
| Redact.RedactionIsExact | src/py_common/telemetry/redact.py:70-81 | the redacted URL is the one text that has REDACTED as the value of every listed parameter and has, outside such values, the same characters in the same order as the URL |
| Redact.RedactionTouchesValuesOnly | src/py_common/telemetry/redact.py:74-81 | redaction is idempotent, keeps every character outside the values of listed parameters in its order, and two URLs get the same result if and only if they differ in listed values only |
| Redact.SubNothing | src/py_common/telemetry/redact.py:74-81 | the pattern's matches cover exactly the values of the listed parameters, found position by position |
| Redact.SubTwice | src/py_common/telemetry/redact.py:80-81 | substituting over a substitution is substituting once, for all replacements free of delimiters |
| Redact.NamesOnlyGrow | src/py_common/telemetry/redact.py:66-72 | the names are the defaults and the caller's, in any case; none is ever removed |
| Redact.NamesAreClean | src/py_common/telemetry/redact.py:41-51 | the default names are free of delimiters, so the pattern's names are if the caller's are |
| Redact.RedactedAttributes | src/py_common/telemetry/redact.py:83-93 | None exactly when no URL attribute changes and no credential header is there; otherwise every attribute is what it should be exported as and the rest are unchanged |
| Redact.CredentialsAreGone | src/py_common/telemetry/redact.py:56-60 | under the request and the response prefix exactly the four credential headers are exported as REDACTED, item for item; every other header is left alone |
| Redact.OthersAreLeft | src/py_common/telemetry/redact.py:86-93 | any attribute that is no URL attribute and not under the two header prefixes is left alone, and a URL attribute is redacted if it is text |

## Left out

- Redis, sockets, event loop and threads: each command or Lua script is one atomic step, clocks and failures are arguments of it.
- redis-py's Lock: modelled as SET NX PX with a token and compare-then-delete or compare-then-extend; its source is not part of this model.
- Key building, SHA-256 digests and the `|`-joined texts: keys and fingerprints are opaque and compared for equality; that different requests have different fingerprints is not claimed.
- Requests without an Idempotency-Key or with another method: they bypass the protocol.
- Header bytes that are not UTF-8, on which `send_wrapper` itself raises: to the protocol this is a handler that raises.
- Python's `base64`, `int`, `sorted`, `re` and `dict`: modelled as the language defines them; their sources are not part of this model.
- JSON: cursors take `json.loads` as a parameter that reads back what the program wrote and may find bytes malformed or nested too deeply (running out of memory is not modelled); records and cached values take serializers that may fail, with a round-trip assumption where one is needed.
- Floating point: times, windows and timeouts are reals or whole milliseconds, and rounding is not modelled.
- RateLimits: `parse_rate` is not modelled.
- FixedWindow.AnyWindowHoldsTwice: intervals are half-open, as windows are.
- SlidingWindow.ScriptKeepsTheLimit: takes the drawn members to be distinct, which uuid4 gives up to chance.
- Lock.ExtendedNeverLapses: takes the extends to succeed in time; ExtendScheduleIsExact says when they are in time.
- Cached.EveryCallReturnsTheOneValue: says that effective steps run out only when all calls have returned; that the event loop takes possible steps is not part of this model.
- Requirements with Custom parts in the printing and monotonicity claims: they carry an arbitrary predicate and text.
- Worker.PoolIdsAreUnique: takes every call to finish; CutOffRepeats shows why.
- UUIDv7 when the clock goes back: the code makes no promise; OrderIsTheClocks says what then happens to the order of two values.
- `new_nanoid`: random choices from an alphabet.
- Non-integer key columns in `_coerce_key`, and keys given as bytes: their parsers belong to the Python library.
- Text.ParseInt: digits and blanks outside ASCII, and the limit Python sets on the length of numerals.
- The database driver is a predicate on the key values it takes, and what a table holds went through it; the errors of a lost connection are not modelled.
- Pagination: SQLAlchemy is a set of unique integer keys with ORDER BY, WHERE, LIMIT and OFFSET; a `max_limit` below 1 is taken not to occur.
- Pagination.PaginateOffset: total and rows come from one table, though the two queries may see different ones; an offset the database driver refuses is taken not to occur.
- Attribute values in Fakes are ints, and an attribute is looked up by its whole dotted name; entities changed after they were stored are not modelled.
- Redact: names containing `?`, `&`, `;`, `#` or `=`, and case folding outside ASCII; span fields other than attributes are copied through.
- Circuit breaker logging, and the two clock readings that opening a breaker takes apart from the one modelled.
- FastAPI and Starlette wiring, logging, metrics, telemetry set-up, gRPC, S3, Keycloak, Alembic, settings, lifespan, health checks, retries, timeouts and the body-size counter: thin wrappers or single-step code that would only add easy members.
