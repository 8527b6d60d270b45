# go-rush-consumer, modelled in Dafny

go-rush-consumer is the consumer side of a "rush" (first come, first served) service. Each
activity has three Redis keys:

- a list of application tokens, filled by a producer;
- a hash from token to applicant;
- a sorted set of seats, from applicant to the time the seat was taken.

While an activity's worker runs, it repeatedly takes a batch of tokens from the head of the
list. Each token that has an applicant makes that applicant take a seat, unless they
already have one. A seat once taken is never re-scored. An activity registry creates,
looks up, starts, stops and removes activities. A weighted round robin picks the Redis
server for each new client. The HTTP layer gives every request an identifier and logs its
latency.

The model covers five files of `component/`:

| file | module | what it holds |
|---|---|---|
| `activity.go` | `Registry` in `activity.dfy` | registry, worker lifecycle, key names, pop and push |
| `activity_legacy.go` | `Legacy` in `activity_legacy.dfy` | the earlier pop and the two worker bodies |
| `redis.go` | `EarlyRegistry` in `redis.dfy` | the first registry, where each activity owns its client |
| `env.go` | `Environment` in `env.dfy` | configuration, turn map and server selection |
| `logger.go` | `Logger` in `logger.dfy` | request identifiers and the latency shown in the log |

Supporting modules:

- `KeyValue` (`store.dfy`) abstracts one activity's three keys as a `Store` class: `queue`, `applicants` and `seats`.
- `Admission` (`admission.dfy`) defines what a batch does to the seat set, as functions with lemmas about them.
  Two functions are the reference every seating contract is stated against. `Admission.Seated` is what the push loop of component/activity.go:164-179 (and its copies at component/activity_legacy.go:116-131 and in component/redis.go) does to the seat set: a non-empty token that HEXISTS finds and whose ZADD NX is answered seats the applicant HGET returns for it, at the turn's clock, unless that applicant already holds a seat. `Admission.TxSeated` is what the loop of `txf` at component/activity_legacy.go:67-82 does: it has no check for an empty token, and the first ZADD error ends the loop. Neither carries contract clauses of its own. Their properties are the `Admission.Seated…` and `Admission.Tx…` lemmas in the table below.
- `Ints`, `Format`, `Results` and `Errors` hold Go integer semantics, decimal formatting, `Option`/`Result` and the error values.

Modelling choices:

- **Store failures.** A store has a fixed set `failing` of commands that answer every call with a reply error. This gives every Redis error branch of the source a condition in the contracts.
- **What each turn observes.** The push loops take a `World`: for the i-th token of one call, `world(i).now` is the timestamp read and `world(i).zaddError` says whether that one ZADD is answered with a reply error. So a ZADD can fail partway through a batch after earlier ones succeeded.
- **Panics.** A panic is a returned `Failure`: a store error, a missing activity, or a nil client (`NilClient`).
- **ids.** Activity ids are `nat`. No operation does arithmetic on them.
- **Go integers.** Counters keep Go's integer semantics explicitly: the `int64` wrap (`Ints.Wrap64`), Go's truncating `%` (`Ints.GoRem`) and the `uint8(i)` conversion (`Environment.Turn`).
- **Bit patterns in the logger.** The request-id arithmetic is done on 64-bit patterns (`bv64`).

The three files are different revisions of one package and do not agree with each other. Each is modelled as written. The helpers `ApplicationExists`, `GetApplicant`, `GetSeatCount` and the push loop are the same in all three files up to how the client is obtained and how an error is logged: `GetRedisClient()` for each command in `activity.go`, `GetClient(&c.RedisServerIndex)` in `activity_legacy.go`, the activity's own `c.Client` in `redis.go`, and `println` against `log.Println` for a ZADD error. Each is defined once in `Registry`, on one store, and their rows name the spans of all three files. The key names exist in `activity.go` and `redis.go` only, where they are the same.

## Model

| member | source | states |
|---|---|---|
| Registry.ActivityPool.constructor | component/activity.go:20-25 | a new registry is empty |
| Registry.ActivityPool.Capacity | component/activity.go:27-29 | the number of registered activities |
| Registry.ActivityPool.New | component/activity.go:31-41 | an existing id gives ErrActivityExisted and nothing changes; a fresh id adds exactly that id, bound to a fresh idle activity with that id, every other entry and working flag unchanged, capacity up by one |
| Registry.ActivityPool.ActivityExists | component/activity.go:43-46 | true exactly when the id is registered |
| Registry.ActivityPool.GetActivity | component/activity.go:48-56 | ErrActivityNotExist for an absent id, the registered activity otherwise |
| Registry.ActivityPool.Remove | component/activity.go:61-79 | only the registry and the activity under that id may change; absent id: ErrActivityNotExist, nothing changes; working and not asked to stop: ErrWorkerIsWorking, the registry and that activity unchanged; otherwise the activity is stopped if it worked, exactly that id is deleted and every other working flag is unchanged |
| Registry.NewThenRemove | component/activity.go:31-79 | registering a fresh id and removing it restores the registry's map exactly, and no registered activity is touched |
| Registry.ActivityPool.Status | component/activity.go:81-87 | the snapshot's keys are exactly the registered ids and each maps to that activity's working flag |
| Registry.KeyName | component/activity.go:102-112 | `Sprintf("%s%d")` yields the prefix, then only digits with no leading zero, which parse back to the id |
| Registry.Activity.GetRedisServerApplicationKeyName | component/activity.go:102-104 | the application prefix followed by the decimal id |
| Registry.Activity.GetRedisServerApplicantKeyName | component/activity.go:106-108 | the applicant prefix followed by the decimal id |
| Registry.Activity.GetRedisServerSeatKeyName | component/activity.go:110-112 | the seat prefix followed by the decimal id |
| Registry.KeyNameInjective | component/activity.go:102-112 | for one prefix, equal key names mean equal ids |
| Registry.DefaultKeyNamesDisjoint | component/env.go:27-31 | with the default prefixes, the application, applicant and seat keys of any two activities never coincide |
| Registry.Activity.constructor | component/activity.go:37-39 | a new activity has its id and is idle |
| Registry.Activity.Start | component/activity.go:117-127 | working: ErrWorkerIsWorking with the cancel handle unchanged; idle: nil and the activity becomes working under a cancel function of the given context |
| Registry.Activity.Stop | component/activity.go:129-144 | idle: ErrWorkerHasBeenStopped; working: nil; afterwards IsWorking is false either way |
| Registry.StopTwice | component/worker_test.go:77-81 | after New and Start, stopping twice yields nil, then ErrWorkerHasBeenStopped |
| Registry.Activity.IsWorking | component/activity.go:140-144 | true exactly when a cancel function is held |
| Registry.StartTwice | component/activity.go:117-127 | starting twice yields nil, then ErrWorkerIsWorking |
| Registry.PopApplicationsFromQueue | component/activity.go:146-157 | LLEN error: a panic, queue unchanged; an empty queue gives no entries; a failing LPOP gives no entries and removes none; otherwise the entries popped, followed by the new queue, are the old queue, and with LPOP answering they are the first min(len, batch) entries in FIFO order; the FIFO order is what component/activity_work_test.go lines 132-141 check |
| Registry.PushApplicationsIntoSeatQueue | component/activity.go:159-180 | the new seat set and the count are exactly `Admission.Seated`; empty input gives 0 and no change; count at most the input length and equal to the growth of the seat set; old seats keep their scores; the seat set is the old one plus the applicants of the mapped tokens whose ZADD was answered, which are all of them when no ZADD errs; applicants and queue untouched (the same loop is component/activity_legacy.go lines 110-132 and, with a connected client, component/redis.go lines 164-185) |
| Registry.SeatTokens | component/activity.go:164-179 | the loop leaves exactly the seat set and count that `Admission.Seated` gives for the tokens in order |
| Registry.ApplicationExists | component/activity.go:182-191 | true exactly when the token is non-empty, HEXISTS answers, and the token is an applicant field (the same code, up to how the client is obtained, is component/activity_legacy.go lines 135-144 and component/redis.go lines 187-196) |
| Registry.GetApplicant | component/activity.go:193-199 | the token's applicant when HGET answers and the field exists, "" otherwise (the same code, up to how the client is obtained, is component/activity_legacy.go lines 147-153 and component/redis.go lines 198-204) |
| Registry.GetSeatCount | component/activity.go:201-207 | the number of seat members, or 0 when ZCOUNT errs (the same code, up to how the client is obtained, is component/activity_legacy.go lines 156-162 and component/redis.go lines 206-212) |
| Admission.SeatedGrowsByCount | component/activity_legacy.go:108-109 | seats only grow; the count equals the number of members added and is at most the number of tokens |
| Admission.SeatedKeepsScores | component/activity_legacy.go:120-127 | a member already seated keeps its score (ZADD NX never re-scores) |
| Admission.SeatedMembers | component/activity.go:164-179 | the seat set becomes the old members plus the applicants of the mapped tokens whose ZADD was answered; when no ZADD errs, that is every mapped token's applicant |
| Admission.AllRefusedSeatsNothing | component/activity.go:173-177 | when every ZADD of the batch errs, nothing is seated or counted |
| Admission.SeatedScores | component/activity.go:168-172 | each newly seated member carries the clock reading of the first turn of the batch that maps to it and whose ZADD was answered (ZADD NX keeps the first) |
| Admission.FirstAnsweredScore | component/activity.go:168-172 | a member without a seat whose first answered turn is i is seated with turn i's reading |
| Admission.SeatedInArrivalOrder | component/activity_legacy.go:31-32 | with a clock that does not run backwards and old seats no later than the first turn, new members score no earlier than every old seat and in the order of their first answered turns: they are appended in order |
| Admission.AllSeatedAddsNothing | component/activity_legacy.go:108-109 | when every candidate is already seated, the batch changes nothing and counts 0 |
| Admission.ReprocessingAddsNothing | component/activity_legacy.go:108-109 | processing a batch a second time, after a first pass in which no ZADD errs, changes nothing and counts 0 |
| Admission.SkippedTokenChangesNothing | component/activity_legacy.go:117-119 | an empty or unmapped token anywhere in the batch can be deleted from it without changing the outcome |
| Admission.SameWorldOnPrefix | component/activity.go:168 | the outcome depends only on what the batch's own turns observe |
| Admission.OneApplicantTwoApplications | component/activity_legacy.go:108-109 | two tokens of the same applicant give one seat and a count of 1, scored at the first token's reading, or at the second's when the first ZADD errs |
| Admission.TxAbortIsFinal | component/activity_legacy.go:77-81 | once a ZADD error has ended the transaction body, later tokens change nothing |
| Admission.TxBounds | component/activity_legacy.go:66-82 | seats only grow; the count equals the growth and is at most the number of tokens; when the store fails every ZADD, nothing is seated |
| Admission.TxAbortsExactly | component/activity_legacy.go:69-81 | the body aborts exactly when ZADD errs on the turn of some token that passed HEXISTS |
| Admission.TxKeepsScores | component/activity_legacy.go:65-82 | a member already seated keeps its score through the transaction body |
| Admission.TxMembers | component/activity_legacy.go:65-82 | without an abort, the seat set becomes the old members plus the applicants of the tokens that passed HEXISTS and were answered; with an abort at token k, the same for the tokens before k |
| Admission.TxAbortKeepsEarlierSeats | component/activity_legacy.go:74-81 | an aborted body ends at a token that passed HEXISTS and whose ZADD erred; what the tokens before it seated and counted is kept, and the tokens after it are not seated |
| Admission.TxAgreesWithPush | component/activity_legacy.go:66-82 | with no ZADD error and no empty token, the transaction body seats and counts exactly what the push does |
| Admission.EmptyTokenOnlyInTransaction | component/activity_legacy.go:69 | an empty token that is an applicant field is seated by the transaction body (when its ZADD is answered) but skipped by the push |
| Legacy.PopApplicationsFromQueue | component/activity_legacy.go:96-106 | LLEN error: a panic, queue unchanged; otherwise the popped entries followed by the new queue are the old one, with LPOP answering they are the first min(len, batch) entries, a failing LPOP gives no entries and removes none, and a batch of 0 pops nothing |
| Legacy.ProcessFunc | component/activity_legacy.go:18-36 | a missing activity or an LLEN error panics with nothing changed; otherwise it returns the popped batch and seats it exactly as `Admission.Seated` says, an empty batch seating nothing, the count at most the batch size; a failing LPOP gives an empty batch, 0 accepted and nothing changed |
| Legacy.SeatInTransaction | component/activity_legacy.go:66-82 | the seats, the count and the returned error are exactly `Admission.TxSeated`'s: the ZADD error is returned exactly when the body aborted |
| Legacy.Txf | component/activity_legacy.go:49-87 | LLEN error: returned, nothing changed; otherwise the batch is clamped to min(len, batch) and popped, then seated as `Admission.TxSeated` says (error only on abort); a failing LPOP gives no applications, no error and nothing changed; the count is at most the batch size; old seats keep their scores; applicants untouched |
| EarlyRegistry.Activity.constructor | component/redis.go:35-38 | a new activity has no client and no worker |
| EarlyRegistry.NewRedisConnection | component/redis.go:77-88 | a nil connection, and only a nil one, gives "invalid redis connection"; otherwise a client for that connection |
| EarlyRegistry.Activity.Connect | component/redis.go:102-110 | a nil connection from `GetRedisConnection` gives "invalid redis connection" with the client unchanged; otherwise the client is set to that connection |
| EarlyRegistry.Activity.Close | component/redis.go:112-119 | no client: a nil-pointer panic; a close error is returned with the client kept; otherwise the client is cleared |
| EarlyRegistry.Activity.Start | component/redis.go:121-137 | with no client and a nil connection, "invalid redis connection" and nothing changed; otherwise the client is connected if it was missing, then an already working activity gives "there is already a worker started" and an idle one starts |
| EarlyRegistry.Activity.Stop | component/redis.go:139-149 | idle: "the worker has already been stopped"; working: nil; the handle is cleared |
| EarlyRegistry.Activity.PopApplicationsFromQueue | component/redis.go:151-162 | no client: a panic; otherwise the pop of component/activity.go on the activity's own store, so a failing LPOP gives no entries and removes none |
| EarlyRegistry.Activity.PushApplicationsIntoSeatQueue | component/redis.go:164-185 | no client: a panic exactly when some token is non-empty, else 0; otherwise the push of component/activity.go on the activity's own store |
| EarlyRegistry.ActivityPool.constructor | component/redis.go:20-25 | a new registry is empty |
| EarlyRegistry.ActivityPool.Capacity | component/redis.go:27-29 | the number of registered activities |
| EarlyRegistry.ActivityPool.New | component/redis.go:31-40 | an existing id gives "activity id existed" and nothing changes; a fresh id adds exactly that id with a fresh activity without client or worker |
| EarlyRegistry.ActivityPool.ActivityExists | component/redis.go:42-45 | true exactly when the id is registered |
| EarlyRegistry.ActivityPool.GetActivity | component/redis.go:47-53 | "activity id not exist" for an absent id, the registered activity otherwise, which in a valid registry carries the id it was looked up by |
| EarlyRegistry.ActivityPool.RemoveActivity | component/redis.go:55-61 | an absent id gives "activity not exist"; otherwise exactly that id is deleted, whatever its worker state |
| EarlyRegistry.RemoveWhileWorking | component/redis.go:55-61 | a working activity is removed by this revision but refused with ErrWorkerIsWorking by component/activity.go |
| Environment.GetRedisConnectionCount | component/env.go:68-70 | the number of configured servers |
| Environment.ServerOptions | component/env.go:80-95 | the address is the host, a colon, then digits without a leading zero that parse back to the port; user name, password and database are copied |
| Environment.Weights | component/env.go:72-78 | one weight per configured server, in order |
| Environment.GetRedisServerTurns | component/env.go:72-78 | as long as the server list, entry i being server i's weight |
| Environment.TurnMapLength | component/env.go:104-110 | the turn map is as long as the sum of the weights |
| Environment.TurnMapInRange | component/env.go:106-110 | every entry names a configured server, for any number of servers |
| Environment.TurnMapOrdered | component/env.go:106-110 | the entries are non-decreasing, so each server's turns form one block in server order |
| Environment.TurnMapCounts | component/env.go:106-110 | server i occurs exactly weight[i] times, so a server of weight 0 never occurs |
| Environment.RedisClientTurns.constructor | component/env.go:97-98 | the counter starts at 0 and the cache empty |
| Environment.RedisClientTurns.GetRedisClientTurnMap | component/env.go:100-113 | a non-empty cache is returned unchanged; otherwise the weights are expanded into the turn map, which is stored and returned, so an empty result is recomputed next time |
| Environment.Selected | component/env.go:116 | an empty turn map is a division by zero; a non-negative counter selects the entry at counter mod length; a negative counter with a non-zero remainder is an index out of range, and one with a zero remainder selects the first entry |
| Environment.RedisClientTurns.GetRedisOptions | component/env.go:115-117 | the counter goes up by one with int64 wrap-around, the cache is filled, and the result is the options of the server `Selected` picks, or the panic it gives |
| Environment.SelectionsRotate | component/env.go:116 | length-many consecutive selections walk the turn map once around, starting anywhere |
| Environment.SelectedIsSelections | component/env.go:115-117 | while the counter stays below 2^63, the k-th of n consecutive calls selects the entry at (counter + 1 + k) mod length, as `Selections` lists it |
| Environment.SelectionCounts | component/env.go:106-117 | with at most 256 servers, one walk around the turn map, from any start, visits server i exactly weight[i] times |
| Environment.RoundRobin | component/env.go:115-117 | over sum-of-weights consecutive calls from a non-negative counter that stays below 2^63, the servers `Selected` picks are those `Selections` lists and server i is picked exactly weight[i] times |
| Environment.FreshSelectionInRange | component/env.go:115-117 | a selection from a freshly built turn map always names a configured server |
| Ints.Wrap64 | component/env.go:116 | the int64 value congruent to x modulo 2^64, equal to x when it is in range |
| Ints.GoRem | component/env.go:116 | Go's `%`: the remainder takes the dividend's sign, with dividend = quotient * divisor + remainder |
| Format.Decimal | component/activity.go:103 | `%d` of a natural number: non-empty, all digits, no leading zero |
| Format.ParseDecimalOfDecimal | component/activity.go:103 | reading back the digits of `%d` gives the number |
| Format.DecimalInjective | component/activity.go:103 | distinct numbers print differently |
| Logger.RequestID | component/logger.go:47-48 | bit 31 is set, so the identifier is at least 0x80000000, and its low 31 bits are those of the wrapping sum of clock and counter |
| Logger.RequestIDs.constructor | component/logger.go:39 | the counter starts at 0 |
| Logger.RequestIDs.NewRequestID | component/logger.go:46-49 | the counter goes up by exactly one (wrapping as int64) and the identifier is `RequestID` of the clock and the new counter |
| Logger.ConsecutiveRequestIDsDiffer | component/logger.go:47-48 | two consecutive counter values give different identifiers at the same clock reading |
| Logger.SameTickRequests | component/logger.go:46-49 | two requests in the same clock tick get different identifiers, both with bit 31 set |
| Logger.LogLatency | component/logger.go:19-21 | up to a minute the latency is unchanged; above it, a whole number of seconds, at most the latency, less than a second below it and still at least a minute |
| Logger.LogLatencyIdempotent | component/logger.go:19-21 | truncating an already shown latency changes nothing |
| KeyValue.Store.LPopCount | component/activity.go:155 | LPOP with a count: with LPOP answering, the first min(count, len) entries are returned and removed; otherwise an error and no change |
| KeyValue.Store.ZAddNX | component/activity.go:169-172 | ZADD NX: an error with no change when the store fails ZADD or this call's reply is an error, or 0 with no change for a present member, or 1 with the member added at the score |

## Left out

- component/worker.go: the worker goroutine loop is left out. It is sleep, cancellation, `recover` and log lines, so `Start` records the cancel function without running a worker.
- Locks and concurrency are left out. Every operation is atomic, so the RW mutexes, the atomic counters' thread safety and interleavings between the registry and workers are not modelled.
- The single WATCH call around `txf` and the logging of its error are left out (component/activity_legacy.go:88-92). Nothing retries the transaction. The lookup and `GetClient` before it (lines 43-48) are also left out. Only the body `txf` is modelled, as `Legacy.Txf`.
- Line 45 of that file dereferences the activity before the lookup error is checked. A missing activity is therefore a nil-pointer panic rather than `panic(err)`, and this is not modelled.
- The Lua admission script used by the tests is not modelled. Its source is not part of this model.
- `GetRedisConnection`, which `Connect` calls, is not part of this model. `EarlyRegistry.Activity.Connect` and `Start` take its result for server 0 as a parameter, `None` standing for nil. `EarlyRegistry.NewRedisConnection` turns a nil connection into "invalid redis connection". Otherwise it makes a client, which does no I/O, and the model takes that client to be the connection's store. `Close` on the network is left out: `EarlyRegistry.Activity.Close` takes its outcome as a parameter.
- Registry.PushApplicationsIntoSeatQueue: sends all commands of one call to one `KeyValue.Store`, although in component/activity.go `GetRedisClient()` picks a round-robin server for every command, so with several shards LLEN, LPOP, HEXISTS, HGET, ZADD and ZCOUNT (`GetSeatCount`) of one call can reach different servers. Each such command also advances `redisClientTurnIndex`, which the model does not track here. The same holds for `Registry.PopApplicationsFromQueue`.
- ZADD scores are float64 in Redis. The model keeps them as unbounded integers taken from `world(i).now`, so no rounding of large microsecond values is modelled.
- Legacy.ProcessFunc: looks the activity up in the `Registry` pool and calls the push of `Registry`. The source uses whichever revision of the package-level `Activities` is built; the legacy push differs only in obtaining its client through `GetClient(&c.RedisServerIndex)` and in logging a ZADD error with `log.Println`. Log output is left out.
- EarlyRegistry: `ApplicationExists`, `GetApplicant` and `GetSeatCount` of component/redis.go are modelled by the `Registry` members on a connected client only. The nil-client panic is modelled for pop and push alone.
- Registry.ActivityPool.Remove: does not model an error from `Stop` inside `Remove`. The activity has just been seen working, so without concurrency `Stop` cannot fail.
- Environment.TurnMapOrdered: requires at most 256 servers. With more, Go's `uint8(i)` wraps, server 256 takes the turns of server 0, and the entries are no longer ordered. `Environment.Turn` models the wrap itself.
- Environment.TurnMapCounts: requires at most 256 servers, for the same reason.
- Environment.SelectionCounts: requires at most 256 servers, for the same reason.
- Environment.RoundRobin: requires at most 256 servers, for the same reason. It also requires counter + Sum(weights) < 2^63, so the int64 counter does not wrap during the calls it counts. After the wrap, `Environment.Selected` gives the index-out-of-range panic for most counter values.
- Intermittent reply errors are modelled for ZADD only. HEXISTS and HGET fail on every call or on none (`failing`), so a batch in which the HEXISTS or HGET of one token alone errs is not modelled. LLEN and LPOP are issued once per call, so a store's `failing` decides that one call.
- Configuration loading is left out: YAML, environment variables and `default:` struct tags. Only the default key prefixes appear, as `Environment.DefaultKeyPrefix`.
- The HTTP and UI layers are left out: controllers, `main.go`, authentication, the panic middleware and response types. So is the formatted log line apart from the latency.
- Logger.RequestIDs.NewRequestID: the clock reading is a parameter, in place of `time.Now().UnixNano()`.
