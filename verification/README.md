# skit: a verified model of its protocols

skit is an SDK for services. This project models the parts of it that are
protocols, states what they promise, and proves it for all inputs, all runs and
all interleavings. Every statement of a database, every script of Redis, every
section under a mutex and every channel operation is one step.

| component | modules |
|---|---|
| errors and backoff | `Errors`, `Backoffs`, `Ranking` |
| the leased task queue | `TaskTable` (the SQL statements on one table), `QueueProtocol` (every run of them by any number of consumers), `Processor` (a tick of the batch processor), `QueueWorkers` (the two together), `QueueInterleaved` (a tick among others), `LeaseTiming` (consumers on clocks of their own), `LeaseSkew` (the bound on them is exact) |
| transactions and outbox | `Retry`, `Tran`, `Outbox`, `Scheduling` (units of work interleaved with the workers), `Delivery` (the units `WithinTran` makes and the workers of their events) |
| the asynchronous audit recorder | `AsyncRecorder` |
| deduplication | `Register` (the expiring register both stores are to be), `DedupStores`, `DedupKeeper` |
| audit versions and compaction | `AuditCompare`, `Compaction`, `AuditStore`, `AuditRace` |
| table partitions | `Calendar`, `Periods`, `PartitionNames`, `Schemes`, `Partition`, `PartitionRuns`, `PartitionSafety` |
| the worker pool | `Pool` |
| nested models | `Traversal`, `FieldEdges` (the edges, told by fields and elements) |

Code that changes state step by step is a class or a method with loops, proved
against functions on values: the task table, the processor tick, `retry.Do`,
`WithinTran`, the dedup stores and `Do`, the audit store, compaction, the
partition planner and `Maintain`, and the walk over nested models. The
concurrent protocols (queue, recorder, pool, audit writers, dedup sequences) are
state machines whose runs are sequences of steps.

Clocks, random fractions, fresh ids, handler results, replies of the database and
of the publisher, and the order in which concurrent steps happen are parameters:
the theorems hold for all of them. An instant is an unbounded number of
nanoseconds; delays of the backoff are reals, cut to int64 at the end.

## What is assumed

- `LeaseTiming`: Timeout is positive, a handler returns by its deadline, a mark is
  made within its 5 seconds or not at all. `skew` is how far the clocks of the
  consumers of one queue are apart, `pause` how long a consumer may take from the
  look at BatchTimeout to the start of the handler, and from its return to the
  start of the mark. skew + 2 x pause is at most Timeout + 5s (and a nanosecond).
  `LeaseSkew` shows that this bound cannot be larger.
- Dedup stores: calls are in the order of their clock readings, and the tokens of
  the memory store are not empty. Lemmas that tell calls apart by token take tokens to be fresh.
- `QueueProtocol.NeverBeforeItsTime`: a consumer marks a task no earlier, on its own clock, than it claimed it, and
  the delays are not negative (those of a backoff are not, `Backoffs.NextInRange`). The other theorems about due
  times need neither.
- `PartitionSafety`: Postgres keeps rows in the range of their partition, and a
  relation whose name reads as a partition of a table has the range of its name.
  What a Keeper creates is so.

## What the code does against its words

- `Backoff.Next` is documented as the delay without jitter. It draws fraction 0,
  so with a Jitter it is an end of the range (`Backoffs.JitterBounds`). A Base of a
  second with a Jitter of 0.2 gives 800ms (`Backoffs.NextTakesJitterOff`). The
  words hold if and only if what the jitter takes off is less than the fraction of
  a nanosecond the delay has, or the delay is out of range either way
  (`Backoffs.NextIsWithoutJitterIff`). The queue defaults have no Jitter.
- `WithinTran` promises that an error means nothing was committed. A commit whose
  reply is lost is an error after a commit (`Tran.LostReplyFailsCommitted`), and
  when the error is retryable the body runs again and the work is committed twice
  (`Tran.LostReplyCommitsTwice`, `Tran.PaidTwice`). Atomicity holds if and only if
  no reply is lost (`Tran.AtomicIffNoReplyLost`).
- The outbox says that only `broker.Permanent` condemns an event. A
  `queue.Permanent` anywhere in the publisher's error does so too
  (`Outbox.EventFate`, `Outbox.QueueMarkCondemns`), unless a panic in the same error takes its place.
- The versions of a model are said to count up. A Compact that deletes version
  v+1 between a Create's read of v and its save lets v+1 be saved again. The exact
  condition is `AuditRace.NewNumberIffUndisturbed`, a run is
  `AuditRace.DeletedNumberIsReused`.
- The two dedup stores are said to behave alike. They do for leases and TTLs of
  whole milliseconds, and for no other (`DedupStores.StoresAgreeIff`): the lease
  and the TTL are each told by a few calls (`DedupStores.LeaseTold`,
  `DedupStores.TtlTold`).
- `Maintain` says that a second run changes nothing. From the year 10000 on the
  names of partitions are not read back, and the second run fails
  (`PartitionSafety.SecondRun`, `PartitionSafety.StuckInTheYear10000`).

## Model

| member | source | states |
|---|---|---|
| `Errors.AsType` | queue/queue.go:84-93 | an error of the wrapped or joined tree that a test accepts, and none only if no error of the tree passes it |
| `Errors.FoundFirst` | queue/queue.go:84-93 | it is the first such error of the tree, depth first and from left to right |
| `Errors.MarksAreFoundAnywhere` | queue/queue.go:52-93 | Permanent and Halt are found at any depth of the tree, and wrapping one in the other keeps both |
| `Errors.MarksAreKept` | queue/queue.go:47-82 | a mark of nil is nil; any other is there to be found, keeps the error it marks and adds no other mark |
| `Errors.TextHoldsAll` | queue/queue.go:47-82 | the text of an error holds the texts of all it wraps, the outer before the inner, and a mark adds nothing to it |
| `Errors.PanicOf` | worker/processor.go:259-281 | a panic anywhere in the tree of an outcome is what goes to OnPanic |
| `Backoffs.NextInRange` | retry/backoff.go:35-71 | every delay, whatever the jitter drew, is between 0 and int64, and within Max when one is set |
| `Backoffs.NextMonotone` | retry/backoff.go:35-71 | drawn at the same fraction, a later attempt never waits less, whatever the Base |
| `Backoffs.GrowsByFactor` | retry/backoff.go:35-71 | the first delay is Base, under no cap each is the Factor times the one before, 2 unless one above 1 is set, and a cap only cuts |
| `Backoffs.JitterBounds` | retry/backoff.go:29-71 | a jittered delay lies in the share of the centre the jitter allows, and Next is the end where it is taken off: the lower one, for a negative Base the upper |
| `Backoffs.NextIsWithoutJitterIff` | retry/backoff.go:29-33 | Next is the delay without jitter if and only if what the jitter takes off is lost in whole nanoseconds |
| `Backoffs.NextTakesJitterOff` | retry/backoff.go:29-33 | with a Base of a second and a Jitter of 0.2 the first delay is 800ms |
| `Backoffs.QueueDelays` | queue/workers.go:169-178 | the default queue backoff waits 2, 4, 8, ... 256 seconds and then 5 minutes, and its budget is never spent |
| `Ranking.First` | queue/pgqueue.go:99-109 | ORDER BY with LIMIT: sorted, no longer than the limit, and nothing left out goes before something taken |
| `TaskTable.Select` | queue/pgqueue.go:97-131 | a claim selects ready and unlocked tasks only, in order, the first ones, and stops short of the limit only when none is left |
| `TaskTable.SelectedIsClaim` | queue/pgqueue.go:97-131 | what the statement returns is a claim of the protocol: distinct ready tasks with the attempts of their rows, under the new lease |
| `TaskTable.ClaimByColumn` | queue/pgqueue.go:97-131 | every claim of the statement, said in the columns of the table alone, the order and the limit included |
| `TaskTable.StaleGuardIsNoOp` | queue/pgqueue.go:133-214 | a mark changes the table if and only if the row is under the lease that is given, a release if and only if one of its rows is |
| `TaskTable.PG.Insert` | queue/pgqueue.go:59-89 | a taken (queue, key) adds nothing, a new one adds one row with the columns given, no lease, no attempt and a due time of now when none is given; missing names are errors |
| `TaskTable.PG.Claim` | queue/pgqueue.go:97-131 | what is handed out was of the queue, due, not ended, free or under a lease that ended, and not locked, by run_at and id; one like it is left only for the limit and comes later; exactly the rows handed out get the fresh lease |
| `TaskTable.PG.MarkDone` | queue/pgqueue.go:136-151 | the row goes exactly when it is under the lease given, else the lease is reported lost and nothing changes |
| `TaskTable.PG.MarkFailed` | queue/pgqueue.go:157-189 | exactly when the lease holds the row loses it, gets the attempts handed out plus one, the error, and a due time or its end; else nothing changes |
| `TaskTable.PG.Release` | queue/pgqueue.go:194-214 | rows still under the lease are free again, with every other column as it was, and others are untouched |
| `TaskTable.PG.Cleanup` | queue/pgqueue.go:218-232 | exactly the rows of the queue whose done_at is before the cutoff go, and their number is returned |
| `QueueProtocol.AlwaysFenced` | queue/pgqueue.go:97-214 | in every run a leased row is not dead, its lease id was issued by a claim, and it still has the attempts its holder was handed |
| `QueueProtocol.LostLeaseStaysLost` | queue/pgqueue.go:133-214 | in every run a lease that was lost is never held again, so all later marks and releases under it are no-ops |
| `QueueProtocol.AttemptsAreExact` | queue/pgqueue.go:153-189 | in every run the attempts of a row are the number of failed marks that took effect |
| `QueueProtocol.DueIsExact` | queue/workers.go:238-245 | in every run the due time of a row is the start of its last failed attempt plus the backoff of its attempts, or that of its insert |
| `QueueProtocol.ClaimedWhenDue` | queue/pgqueue.go:97-131 | in every run no claim hands out a task before it is due |
| `QueueProtocol.BackoffIsWaited` | queue/workers.go:238-245 | in every run a task that failed and lives is handed out again no sooner than its backoff after the failed attempt began |
| `QueueProtocol.DelayIsWaited` | queue/pgqueue.go:59-131 | in every run a task that has not failed is not handed out before the time of its insert |
| `QueueProtocol.NeverBeforeItsTime` | queue/pgqueue.go:59-131 | with clocks that go on it never is, however often it failed since |
| `QueueProtocol.OneMarkPerClaim` | queue/pgqueue.go:133-189 | in every run a claim of a task has at most one mark that took effect, and none while its lease stands |
| `QueueProtocol.ReleaseFrees` | queue/pgqueue.go:191-214 | in every run a release frees the tasks given that are still under the lease of the first, counts no attempt and changes no other row |
| `QueueProtocol.Conservation` | queue/pgqueue.go:59-232 | in every run the inserted tasks are the disjoint union of those in the table, done and cleaned |
| `QueueProtocol.ExactlyOnePlace` | queue/pgqueue.go:59-232 | in every run a task is exactly one of waiting, leased, dead, done and cleaned if it was inserted, and none if not |
| `QueueProtocol.KeysStayUnique` | queue/pgqueue.go:59-89 | in every run a (queue, key) pair has at most one row |
| `QueueProtocol.DeadByMark` | queue/pgqueue.go:153-189 | in every run a dead row was killed by a failed mark that took effect, at the time it carries |
| `QueueProtocol.LeavesDoneOrDead` | queue/workers.go:195-207 | a row leaves only by a done mark under its current lease after a nil outcome, or by the cleaner more than 7 days after the mark that killed it |
| `QueueProtocol.DeadIsNeverClaimed` | queue/pgqueue.go:97-131 | in every run no claim after a death holds the dead task |
| `Processor.HandledCount` | worker/processor.go:173-209 | the tick ends before the first item found expired and after the first whose outcome stops it, and at no other place |
| `Processor.Worked` | worker/processor.go:230-254 | each handled item is handled once and marked once, in order |
| `Processor.TickIsFromScript` | worker/processor.go:173-281 | the calls of a tick, told from the handler results, OnPanic, the cancellation and the clock readings alone |
| `Processor.Work` | worker/processor.go:173-209 | the loop over the items makes exactly those calls, and halted says that a Halt ended it |
| `Processor.Drain` | worker/processor.go:173-254 | for every mix of Halt, cancellation, BatchTimeout and panic, from the script of the tick alone: each item of a prefix is handled once and marked once by what its handler did, a panic by what OnPanic made of it; the prefix ends where the source says; one release of the untouched rest; and Busy exactly for a full batch that no Halt ended |
| `Processor.MachineIsDrain` | worker/processor.go:173-224 | the move by move consumer of the timing model makes exactly the calls of the loop |
| `Processor.TracesAreTicks` | worker/processor.go:173-224 | the move by move consumer makes exactly the moves of a tick: for each item begin, handle and mark, or a release, in this order, and none after BatchTimeout |
| `QueueWorkers.DefaultWorkers` | queue/workers.go:35-46 | every zero field takes its default and any other is kept: one worker, one task a batch, 30s, a poll a second; 2s doubling to 5m, no budget |
| `QueueWorkers.WorkersRunBy` | queue/workers.go:35-46 | the settings at work: Timeout for a task and for starting a batch, a lease of 3 x Timeout + 10s, the delays and the budget of the backoff |
| `QueueWorkers.DrainOnTable` | worker/processor.go:173-254 | a tick that no other call interrupts marks the handled prefix by its outcomes, frees the rest as it was, and changes no other row |
| `QueueWorkers.HandledRow` | worker/processor.go:230-281 | on the table a handled task goes by what its handler did: one whose panic OnPanic turns into an error is still there with an attempt more |
| `QueueWorkers.AliveIsWithinBudget` | queue/workers.go:66-70 | in every run a task that lives has failed less often than MaxAttempts |
| `QueueWorkers.DiesAtTheLastAttempt` | queue/workers.go:238-245 | in every run a failed mark kills exactly when the error is permanent or it is number MaxAttempts, and there is none after that |
| `QueueWorkers.AllHaltCountsOne` | worker/processor.go:173-224 | a batch whose handlers all halt adds an attempt to its first task alone and moves nobody else |
| `QueueInterleaved.RunKeepsLease` | queue/pgqueue.go:59-232 | however a run goes on, a task still under an issued lease is as it was, and no other task comes under it |
| `QueueInterleaved.ClaimedBatch` | queue/pgqueue.go:97-131 | in the table a claim leaves, its batch is under the new lease as it was handed out, each task once |
| `QueueInterleaved.TickAmongOthers` | worker/processor.go:173-254 | with anything a run can do between any two calls, and marks and releases that fail: each mark that is applied meets the outcome of its task if it is still held and is a no-op if not, a release frees what is still held as it was claimed, and what was marked or released is never under the lease again |
| `LeaseTiming.ClaimSparesOpenBatch` | queue/workers.go:43-46 | 3 x Timeout + 10s against 2 x Timeout + 5s of work, two pauses and the skew: a claim cannot reach a batch that may still mark |
| `LeaseTiming.MutualExclusion` | queue/workers.go:43-46 | in every timed run with a skew and two pauses of at most Timeout + 5s together, no two consumers are in the handler of one task or about to mark it |
| `LeaseTiming.NoReclaimWhileBusy` | queue/pgqueue.go:97-131 | in every such run no claim takes a task before its holder has marked it |
| `LeaseTiming.MarksKeepTheirLease` | worker/processor.go:286-301 | in every such run a consumer that is handling or marking holds the lease, so no mark loses it |
| `LeaseTiming.TimedRunIsQueueRun` | worker/processor.go:173-204 | every timed run is a run of the queue protocol, so all that holds of those holds of it |
| `LeaseTiming.CrashedIsIdle` | worker/processor.go:173-204 | a consumer that crashed or whose claim failed is busy with nothing and may start anew, and the table does not know |
| `LeaseTiming.WritesItsCalls` | worker/processor.go:173-254 | what a consumer writes to the queue is what the tick calls, the mark of the item or the release of the rest |
| `LeaseSkew.SkewBoundIsTight` | queue/workers.go:43-46 | from one nanosecond more of skew or pauses on, for every Timeout, a run puts two consumers in one task |
| `Retry.Do` | retry/retry.go:61-98 | fn is called until the first call that is not to be retried, never more than the budget; the result is that of the last call, or the cut wait, and OnRetry is called once for each wait |
| `Tran.DB.Within` | dbx/tran.go:47-98 | at most three runs, one more exactly after a retryable failure whose wait ran to its end; nil exactly when the commit of the last one was accepted, and the commits are those of the runs made |
| `Tran.CommittedByDo` | retry/retry.go:61-98 | what the retries of DB.tran leave committed is what each attempt committed, in order |
| `Tran.AtomicIffNoReplyLost` | dbx/tran.go:47-98 | nil means the writes and tasks of exactly one run and an error means none, if and only if no reply to a commit was lost |
| `Tran.LostReplyCommitsTwice` | dbx/tran.go:68-98 | a retryable lost reply is followed by another run, and then the work is committed twice and reported as done |
| `Tran.LostReplyFailsCommitted` | dbx/tran.go:68-98 | a lost reply that is not retryable is an error after one commit |
| `Tran.PaidTwice` | dbx/tran.go:68-98 | attempts of the first kind, with one write each |
| `Tran.Execute` | dbx/tran.go:100-102 | running a body only adds to the pending writes, and an aborted transaction takes none |
| `Tran.ExecRuns` | dbx/tran.go:100-102 | a statement adds its change and goes on; one that fails, or comes after one that failed, adds nothing and leaves the transaction aborted |
| `Tran.ScheduleRuns` | queue/scheduler.go:28-49 | a scheduled value adds the task of its route with the payload its encoder wrote, nothing when the route drops it, and is an error for nil, an unknown type or a failed encoding |
| `Tran.WrittenStays` | queue/scheduler.go:20-25 | a task that was scheduled and a change that was made are among the writes, whatever the body does next |
| `Tran.NestingIsInline` | dbx/tran.go:100-102 | bodies nested through a Tx to any depth write and end as one flat transaction |
| `Outbox.EventFate` | outbox/handler.go:23-43 | exactly when an event is done, exactly when it is condemned at once and exactly when it halts the batch, for every answer of the publisher |
| `Outbox.QueueMarkCondemns` | outbox/handler.go:45-60 | an error marked by the queue and not by the broker condemns the event |
| `Outbox.PayloadIsFixed` | queue/pgqueue.go:59-189 | in every run a task keeps the queue and the payload it was inserted with |
| `Outbox.FailureIsNotDeath` | outbox/handler.go:45-60 | a failed attempt of a deliverable event leaves it alive and due between 2s and 5m from the start of the attempt |
| `Outbox.EventWorkers` | outbox/handler.go:45-60 | a queue of events: batches of 100, 5 seconds for a publish and for the batch, a lease of 25, a poll every 2 seconds, one worker, no budget |
| `Outbox.OutageNeverDeadLetters` | outbox/handler.go:45-60 | in every run of any length a deliverable event is never dead |
| `Outbox.RemovedOnlyAfterPublish` | outbox/handler.go:23-60 | in every run a deliverable event leaves the table only after a publish that succeeded |
| `Delivery.TasksAreCommitted` | queue/scheduler.go:20-25 | with any number of units of work, retries and workers interleaved, the tasks a unit has in the table's log are those of the transactions it committed, each once and in order |
| `Scheduling.EventsDiffer` | queue/scheduler.go:20-25 | the tasks of all units have ids of their own |
| `Scheduling.TasksOfUnit` | queue/scheduler.go:20-25 | whatever the units do, what a unit has in the log are the tasks of its attempts, each once and in order |
| `Delivery.TriesAreRuns` | dbx/tran.go:47-98 | a unit that returned made the runs WithinTran makes, and no other number |
| `Delivery.AllTasksOrNone` | queue/scheduler.go:20-25 | no reply lost, a unit that returned nil left the tasks of its last run and one that returned an error left none |
| `Delivery.NoEventIsLost` | outbox/doc.go:1-6 | an event of a committed transaction is in the table and alive until a publish of it succeeded, through an outage of any length |
| `Delivery.NilIsDelivered` | outbox/doc.go:1-6 | every event written by a unit that returned nil is there until it was published |
| `Delivery.FailedIsNowhere` | outbox/doc.go:1-6 | a unit that returned an error has no event in the table's log |
| `Delivery.PublishedWasCommitted` | outbox/doc.go:1-6 | what a handler of the queue is given came into the table before, in a transaction that was committed, with the payload it has |
| `AsyncRecorder.Configured` | auditlog/async.go:64-87 | 4 workers and a buffer of 256 unless positive ones are set, and entries of one model share a shard |
| `AsyncRecorder.NothingLost` | auditlog/async.go:96-192 | when Start has returned, the shards are empty and each entry whose Record returned was written once or dropped once, never both |
| `AsyncRecorder.DroppedOnlyFor` | auditlog/async.go:96-133 | in every run a step drops one entry at most, and only when the recorder was closing before the check, a full shard met a recorder that does not block, or a blocked one was canceled |
| `AsyncRecorder.SentUntilCanceled` | auditlog/async.go:96-133 | in every run without a cancellation a recorder that blocks drops nothing, nor does one whose shards are never full, and each entry whose Record returned is in its shard once |
| `AsyncRecorder.RoomIsOffered` | auditlog/async.go:96-133 | a Record at its select can be sent to its shard whenever that has room |
| `AsyncRecorder.RoomIsTaken` | auditlog/async.go:96-133 | and with a recorder that does not block no step takes it past the select in another way |
| `AsyncRecorder.BuffersUntilStart` | auditlog/async.go:96-133 | until Start nothing is written and each shard holds all it was sent |
| `AsyncRecorder.LateRecordDrops` | auditlog/async.go:96-133 | a Record that comes after Start returned drops its entry |
| `AsyncRecorder.WriterIsAlone` | auditlog/async.go:135-168 | no Record is between its locks while the coordinator holds the lock |
| `AsyncRecorder.StepsInOrder` | auditlog/async.go:96-168 | where a Record call may go next, and the order in which the coordinator closes done, locks, sets closing and closes drainReady |
| `AsyncRecorder.OutsideSteps` | auditlog/async.go:96-168 | a Record can come in any state, and so can the one Start and the one cancellation |
| `AsyncRecorder.WorkersServe` | auditlog/async.go:170-192 | a worker that runs takes the oldest entry of its shard whenever there is one, and writes what it took |
| `AsyncRecorder.WritesFollowEnqueueOrder` | auditlog/async.go:135-192 | in every state a worker has written a prefix of what its shard was sent, in that order |
| `AsyncRecorder.NeverStuck` | auditlog/async.go:96-168 | after the cancellation, while Start or a Record has not returned, some step is possible, producers parked on a full shard included |
| `AsyncRecorder.MovesUseRank` | auditlog/async.go:96-192 | every step of the recorder lowers a rank |
| `AsyncRecorder.RunsAreBounded` | auditlog/async.go:145-192 | so with no new Record a run ends within the rank |
| `Register.OneHolder` | dedup/dedup.go:165-186 | at any call of any sequence a key has at most one holder with an unexpired lease |
| `Register.HolderKeepsOthersOut` | dedup/dedup.go:165-186 | while a call holds a key every other acquire of it is told in progress |
| `Register.CompletedIsFound` | dedup/dedup.go:165-186 | after a complete that reported true every acquire within the TTL finds that value, whatever late calls came between |
| `Register.LateSettleChangesNothing` | dedup/dedup.go:140-163 | a complete or a release after the end of its lease changes nothing and reports false |
| `Register.HolderSettles` | dedup/dedup.go:130-186 | a call that holds the key settles it: a complete reports true and stores for the TTL, a release frees the key, and no other key changes |
| `Register.AcquireIsTold` | dedup/dedup.go:165-186 | in every sequence of calls an acquire is told in progress exactly while a lease stands, a result exactly while one stands, and else gets the key |
| `DedupStores.Memory.Sweep` | dedup/memory.go:77-85 | a sweep is invisible: it changes no answer of the register |
| `DedupStores.Memory.Acquire` | dedup/memory.go:39-53 | the answer and the new state are those of the register, and the clock moves on |
| `DedupStores.Memory.Complete` | dedup/memory.go:55-65 | the answer and the new state are those of the register |
| `DedupStores.Memory.Release` | dedup/memory.go:67-74 | the new state is that of the register |
| `DedupStores.KeptIffWholeMillis` | dedup/redis.go:100-103 | PX keeps a duration exactly when it is a whole number of milliseconds, at least 1 |
| `DedupStores.TextIsFaithful` | dedup/redis.go:36-61 | the text of a record tells a running one from a done one and gives the token or the value back |
| `DedupStores.Redis.Acquire` | dedup/redis.go:36-80 | the script answers and leaves the key as the register does, for durations PX keeps |
| `DedupStores.Redis.Complete` | dedup/redis.go:46-90 | the script replaces the record only under its own token, as the register does |
| `DedupStores.Redis.Release` | dedup/redis.go:54-98 | the script deletes the record only under its own token, as the register does |
| `DedupStores.MemoryAnswers` | dedup/memory.go:39-85 | the memory store, sweeping or not, answers every sequence of calls as the register |
| `DedupStores.RedisAnswers` | dedup/redis.go:36-103 | the Redis store answers every sequence of calls as the register does on the durations PX makes of those given, whatever they are |
| `DedupStores.AnswerAll` | dedup/memory.go:39-85 | on every sequence of calls the memory store answers as the register, sweeping or not, and Redis as it does if and only if rounding the durations changes no answer, as for whole milliseconds |
| `DedupStores.StoresAgreeIff` | dedup/dedup.go:165-186 | the two stores answer every sequence of calls with a lease and a TTL alike if and only if both are whole milliseconds, for all durations |
| `DedupStores.LeaseTold` | dedup/redis.go:100-103 | two acquires on a memory store and on a Redis store, as each answers them: alike if and only if the lease is a whole number of milliseconds |
| `DedupStores.TtlTold` | dedup/redis.go:100-103 | an acquire, a complete and an acquire on both, as each answers them: alike if and only if the TTL is |
| `DedupKeeper.Do` | dedup/dedup.go:92-163 | on any store that answers as the register, case by case: fn runs exactly when the key is free and the acquire came back; what is returned and stored for an empty key, a failed acquire or settle with or without effect, in progress, a repeat, a result, one that does not encode, an error and a panic |
| `DedupKeeper.DoAgain` | dedup/dedup.go:92-163 | Do twice on one key: after a success within the lease the second gets the first result for the whole TTL and does not run, after a failure it runs again |
| `DedupKeeper.RunsOncePerKey` | dedup/dedup.go:87-128 | after fn succeeded within its lease, every repeat within the TTL gets its value, whatever else is called |
| `DedupKeeper.FailureFreesKey` | dedup/dedup.go:92-163 | after an error, a value that does not encode or a panic within the lease the key is free at once and stays so while nobody takes it |
| `DedupKeeper.LostResultFreesAtLeaseEnd` | dedup/dedup.go:130-163 | a result that was not stored keeps the key busy to the end of the lease and no longer |
| `AuditCompare.StripRemovesOnlyVolatile` | auditlog/compare.go:75-94 | normalization takes away what is under updated_at or updated_by at any depth and nothing else |
| `AuditCompare.EqualIffSameElsewhere` | auditlog/compare.go:39-73 | two objects or nulls are equal if and only if they show the same at every path that avoids those keys, and anything else is an error |
| `Compaction.EvenGaps` | auditlog/compact.go:110-127 | the gaps between picks differ by at most one |
| `Compaction.PickBounds` | auditlog/compact.go:110-127 | every pick lies inside the window |
| `Compaction.PicksGrow` | auditlog/compact.go:110-127 | picks are distinct and ascend |
| `Compaction.CountKept` | auditlog/compact.go:100-108 | the number of kept versions |
| `Compaction.KeepEvenly` | auditlog/compact.go:110-127 | exactly the picks of the window are marked, and nothing outside changes |
| `Compaction.MarkProtected` | auditlog/compact.go:48-70 | the first, the last and the recent versions are marked, and no others |
| `Compaction.MarkMiddle` | auditlog/compact.go:72-90 | the middle is marked by the cap, by the factor, or whole, as the options say |
| `Compaction.VersionsToDelete` | auditlog/compact.go:47-98 | exactly the versions the rule does not keep, in order |
| `Compaction.FirstAndLastSurvive` | auditlog/compact.go:45-98 | the least and the greatest version are never deleted |
| `Compaction.CapModeSurvivors` | auditlog/compact.go:47-98 | in cap mode exactly min(n, max(MaxVersions, protected)) versions survive |
| `Compaction.ProtectedSurvive` | auditlog/compact.go:48-70 | the first version and the KeepRecent last survive, whatever else the options say |
| `Compaction.FactorModeKeeps` | auditlog/compact.go:72-90 | in factor mode a version of the middle survives if and only if its place is a multiple of the factor |
| `Compaction.FactorModeSurvivors` | auditlog/compact.go:47-98 | in factor mode exactly 1 + middle/factor + recent versions survive |
| `Compaction.OneInFactor` | auditlog/compact.go:72-90 | of any factor versions in a row of the middle exactly one survives |
| `Compaction.FactorModeGaps` | auditlog/compact.go:72-90 | and of any factor versions in a row, wherever they lie, one survives |
| `Compaction.CapModeKeeps` | auditlog/compact.go:72-127 | in cap mode a version of the middle survives if and only if the cap leaves room and it is one of the even picks |
| `Compaction.DeletesNothingIff` | auditlog/compact.go:47-98 | nothing is deleted if and only if the length says the history is compact |
| `Compaction.CompactIsMonotone` | auditlog/compact.go:145-171 | a history no longer than a compact one is compact |
| `Compaction.SecondRunDeletesNothing` | auditlog/compact.go:45-98 | a second run over what survived deletes nothing |
| `AuditStore.Position` | auditlog/audittest/store.go:38-53 | where a version is or belongs in an ascending history |
| `AuditStore.InsertedKeepsOrder` | auditlog/audittest/store.go:38-53 | a new version keeps the history ascending |
| `AuditStore.InsertedAdds` | auditlog/audittest/store.go:38-53 | it adds itself and nothing else, and goes last when it is the greatest |
| `AuditStore.OverThreshold` | auditlog/audittest/store.go:116-141 | the models over the threshold, each once, the longest first, cut at the limit only |
| `AuditStore.CompactedSurvives` | auditlog/compact.go:28-43 | what a Compact leaves are the surviving versions in order, and all of them exactly when the history is compact |
| `AuditStore.Store.Save` | auditlog/audittest/store.go:36-53 | a version already stored is a duplicate and changes nothing; else it is inserted in its place |
| `AuditStore.SaveByVersion` | auditlog/audittest/store.go:36-53 | a save, said of the versions of a history alone: nothing for a number it has, else the one new version with a new id |
| `AuditStore.Store.QueryLast` | auditlog/audittest/store.go:55-66 | the greatest version, or none for an empty history |
| `AuditStore.Store.DeleteVersions` | auditlog/audittest/store.go:102-114 | exactly the given versions of the model go, and their number is returned |
| `AuditStore.Store.Compact` | auditlog/compact.go:26-43 | the history becomes its survivors; 0 exactly when there is nothing to delete, and then nothing changes |
| `AuditStore.Store.CompactBatch` | auditlog/compact.go:145-171 | the versions of the store drop by the number returned; models changed 0 means that no model over the threshold has anything left, those cut off by the limit included |
| `AuditStore.Store.DrainBacklog` | auditlog/compact.go:145-149 | calling it until nothing changes ends, with every model over the threshold compact |
| `AuditStore.NothingCutOff` | auditlog/compact.go:145-171 | a model the limit cut off is compact when the listed ones are |
| `AuditStore.Store.Create` | auditlog/auditlog.go:226-270 | at most three passes, each after rivals took the number of the one before; the last version of the store as the last pass read it decides: the snapshot equals it, or cannot be compared, and nothing is saved, or the next number is saved, or a rival saved that number, and this only at the third pass |
| `AuditStore.Store.CreateOnce` | auditlog/auditlog.go:226-270 | one pass of the loop: it reads the greatest version stored, and saves the next number if and only if the snapshot differs and no rival took it |
| `AuditStore.PassedIsBy` | auditlog/auditlog.go:226-270 | a pass, said of the histories alone, and no other model changes |
| `AuditStore.AloneInOnePass` | auditlog/auditlog.go:226-270 | a Create nobody interferes with takes one pass and does not give up |
| `AuditStore.Store.Compare` | auditlog/auditlog.go:238-247 | unchanged or invalid exactly as the comparison with the version read says, and no comparison without one |
| `AuditStore.Store.SaveNext` | auditlog/auditlog.go:226-270 | the number after the greatest is a duplicate only when a rival saved it in between |
| `AuditRace.EndsAreNeverDeleted` | auditlog/compact.go:28-43 | in every interleaving of Creates and Compacts no delete takes the least or the greatest stored version |
| `AuditRace.NewNumberIffUndisturbed` | auditlog/auditlog.go:226-270 | a save gives out a number for the first time if and only if that number was not deleted between its read and its save |
| `AuditRace.VersionsAreContiguous` | auditlog/auditlog.go:226-270 | with no such delete the saves are 1, 2, ..., n in this order, neighbours differ after normalization, and what is stored is what was saved |
| `AuditRace.StoredIsAll` | auditlog/auditlog.go:226-270 | with no delete at all exactly 1..n are stored |
| `AuditRace.GivesUpOvertaken` | auditlog/auditlog.go:226-270 | in every interleaving a Create that gives up was overtaken since its first read by at least three saves, none its own |
| `AuditRace.ReadsTheGreatest` | auditlog/auditlog.go:226-270 | in every interleaving a Create reads the greatest version stored, or none |
| `AuditRace.DecidesByRead` | auditlog/auditlog.go:226-270 | an equal snapshot and one that cannot be compared save nothing; any other is saved under the next number, or begins one of three passes, or gives up |
| `AuditRace.DisturbedByDelete` | auditlog/auditlog.go:226-270 | a Create is disturbed exactly from a step on that takes the number it will save from the store |
| `AuditRace.CompactsWhatItListed` | auditlog/compact.go:28-43 | a Compact deletes what its rule listed, whatever was saved meanwhile, and nothing else |
| `AuditRace.CreateEnds` | auditlog/auditlog.go:226-270 | in every interleaving a Create makes at most three reads and three saves |
| `AuditRace.DeletedNumberIsReused` | auditlog/auditlog.go:226-270 | a run of four Creates and a Compact in which number 2 is saved twice |
| `Calendar.MonthOf` | partition/partition.go:255-262 | the month found for a day holds that day |
| `Calendar.MonthIsUnique` | partition/partition.go:255-262 | no other month does |
| `Calendar.DateOfDay` | partition/partition.go:255-272 | the date of a day names that day |
| `Calendar.DayOfDate` | partition/partition.go:255-272 | the day of a date has that date |
| `Calendar.MonthStartIsByYear` | partition/partition.go:255-272 | counting month after month agrees with the count by years, leap rule and days before a month |
| `Periods.StartIsBoundary` | partition/partition.go:255-262 | start gives the first instant of the period of its time |
| `Periods.AddIsBoundary` | partition/partition.go:264-272 | add gives the start n periods on, over month lengths, leap years and year ends, backwards too |
| `PartitionNames.ParseOfFormat` | partition/partition.go:247-253 | a written date is read back if and only if its year has four digits |
| `PartitionNames.FormatOfParse` | partition/partition.go:149-162 | what is read is written back as it was |
| `PartitionNames.NamesAreInjective` | partition/partition.go:139-147 | names are the same only for the same table and the same date, whatever the year |
| `PartitionNames.DatesInNameOrder` | partition/partition.go:247-253 | names of four-digit years sort by their dates |
| `Schemes.LaterNamesSortLater` | partition/partition.go:164-173 | so the names of later days and months sort later |
| `Schemes.PeriodIsLawful` | partition/partition.go:247-272 | days and months tile time, their names are injective over tables and read back for four-digit years |
| `Schemes.WindowTiles` | partition/partition.go:190-206 | the current period holds now, each ends where the next starts, and an instant is in the window if and only if one of its periods holds it, and only one |
| `Schemes.PeriodsTile` | partition/partition.go:190-206 | the same, of days and of months |
| `Partition.New` | partition/partition.go:69-85 | a Keeper exactly for an acceptable configuration, else the first thing wrong with it |
| `Partition.AcceptableIff` | partition/partition.go:69-85 | what is acceptable: a known period, no negative setting, and at least one table, each plainly named, short enough and listed once |
| `Partition.TableNameIff` | partition/partition.go:274-305 | a table name is a word, or two with a dot between them |
| `Partition.FitsIffNamesFit` | partition/partition.go:281-305 | a table fits if and only if the names of its partitions have at most 63 bytes |
| `Partition.KeeperIs` | partition/partition.go:66-85 | the Keeper that is built has the tables in their order, the retention as it is, and an Ahead of 1 for none |
| `Partition.CheckTables` | partition/partition.go:281-305 | the first table that is badly named, too long or listed twice, or none |
| `Partition.BuiltIsWellMade` | partition/partition.go:66-85 | a Keeper that was built has a lawful period whose names sort by time, different tables and an Ahead of at least 1 |
| `Partition.ParseOfPart` | partition/partition.go:149-162 | the relation of a partition is read as that partition, or not at all when its year is longer |
| `Partition.PartOfParse` | partition/partition.go:149-162 | what is read is a whole period of the table with the name of the relation |
| `Partition.PartNamesAreInjective` | partition/partition.go:139-147 | two partitions of one name are one partition |
| `Partition.Plan` | partition/partition.go:194-219 | the plan is the missing partitions of the window and the expired ones |
| `Partition.CreatesExactly` | partition/partition.go:190-206 | what the window lacks by name is created, and nothing else |
| `Partition.DropsExactly` | partition/partition.go:207-219 | what ended Retention ago is dropped, and nothing else |
| `Partition.NothingCreatedAndDropped` | partition/partition.go:194-219 | no plan creates and drops one partition, whatever exists |
| `Partition.CreatedInOrder` | partition/partition.go:30-35 | partitions are created period by period in the order of the tables |
| `Partition.DroppedInReverse` | partition/partition.go:190-219 | they are dropped in the reverse order of the tables, and of one table the oldest first when they are listed in order |
| `PartitionRuns.Database.SelectPartitions` | partition/partition.go:164-169 | the partitions of a table, each once, ordered by relname |
| `PartitionRuns.Database.Partitions` | partition/partition.go:171-188 | every relation of the tables that reads as a partition, each once, and no other, table by table in the order of their periods |
| `PartitionRuns.Database.Apply` | partition/partition.go:225-245 | the creates in turn, then the drops in turn; the first failure ends it |
| `PartitionRuns.CreateAllIff` | partition/partition.go:225-235 | partitions that are apart can all be created if and only if each can |
| `PartitionRuns.DropAllIff` | partition/partition.go:236-245 | partitions of different names can all be dropped if and only if each is there as one of its table |
| `PartitionRuns.AppliedIsMaintained` | partition/partition.go:225-245 | applying a plan in turn leaves the window there, the expired gone and the rest as it was |
| `PartitionRuns.Database.Maintain` | partition/partition.go:101-128 | it succeeds if and only if the missing partitions can be created and the transaction commits, and a failure changes nothing |
| `PartitionSafety.SecondRun` | partition/partition.go:96-100 | planned again at the same time nothing is created, and a second run succeeds and changes nothing, if and only if the years of the window have four digits |
| `PartitionSafety.ShortWindowIff` | partition/partition.go:247-253 | they have exactly when those of the first and the last period have |
| `PartitionSafety.SecondRunInDecember9999` | partition/partition.go:149-162 | in December 9999 a Keeper of months whose run succeeded, on whatever database, fails when it runs again |
| `PartitionSafety.StuckInTheYear10000` | partition/partition.go:149-162 | a database on which it does: empty, the first run can create its window and succeeds, and the second fails |
| `PartitionSafety.DroppedRowsAreOld` | partition/partition.go:40-43 | no row younger than Retention is dropped, nor any at all without a Retention |
| `PartitionSafety.MisnamedIsDropped` | partition/partition.go:207-219 | a relation whose name reads as expired is dropped whatever its range and rows |
| `PartitionSafety.MaintainCovers` | partition/partition.go:96-128 | after a Maintain every row stamped in its window has a partition |
| `PartitionSafety.RowsStayWhileYoung` | partition/partition.go:40-43 | in every run, clocks that go back included, a row stays until a Maintain finds it older than Retention |
| `PartitionSafety.RowHasPartition` | partition/partition.go:96-128 | in every run a row stamped in the window of the last Maintain that succeeded has a partition |
| `PartitionSafety.MaintainNeverBlocked` | partition/partition.go:101-128 | in every run from an empty database with four-digit years Maintain can always create what is missing |
| `Pool.Capacity` | worker/pool.go:38-45 | the slots are MaxConcurrent, or one when it is not positive |
| `Pool.ConcurrencyIsBounded` | worker/pool.go:54-107 | in every interleaving no more jobs execute than there are slots, and Running counts at least those |
| `Pool.SlotsAreAccounted` | worker/pool.go:67-104 | the semaphore holds exactly the slots taken and not given back |
| `Pool.EverySlotIsGivenBack` | worker/pool.go:67-104 | when every Submit has failed or its job has finished, every slot taken was given back |
| `Pool.NeverStuck` | worker/pool.go:59-145 | from every reachable state all slots can come back and a waiting Shutdown return, and left alone every run ends within a rank, with all slots back |
| `Pool.RunsAreBounded` | worker/pool.go:59-145 | without a new Submit, Shutdown or Cancel every run ends within a rank |
| `Pool.RestIsOver` | worker/pool.go:59-145 | and where it ends every slot is back, every Submit was refused, gave up or its job finished, and every Shutdown returned |
| `Pool.ShutdownCancelsAll` | worker/pool.go:78-92 | once the pool is closed every job that has not ended is canceled |
| `Pool.CancelCancelsOne` | worker/pool.go:109-117 | a Cancel of a job that is not done cancels it and no other; of any other key it changes nothing |
| `Pool.CanceledByItself` | worker/pool.go:78-117 | in a pool that is not closed a job is canceled by a Cancel of its key or by its own end |
| `Pool.EndedIsCanceled` | worker/pool.go:94-104 | the context of every job that has ended is canceled |
| `Pool.RefusedOnlyByClosing` | worker/pool.go:54-92 | in every interleaving a Submit is refused, or backs out, only by a pool that is closed |
| `Pool.ClosedByShutdown` | worker/pool.go:119-145 | and a pool is closed only by a Shutdown |
| `Pool.PhasesInOrder` | worker/pool.go:54-145 | where a Submit, its job and a Shutdown may go next, and that neither a cancellation nor a shutdown is undone |
| `Pool.Offered` | worker/pool.go:54-145 | what is possible: any call in any state; at its select a Submit can take a free slot, give up, and be refused by a closed pool; a Shutdown can return with its context at any time |
| `Pool.NothingRunsAfterShutdown` | worker/pool.go:119-145 | once a Shutdown returned nil no job executes, and none begins in any continuation |
| `Pool.LateSubmitIsRefused` | worker/pool.go:60-65 | a Submit that comes to a closed pool never holds a slot |
| `Traversal.Walker.CollectNested` | translation/parser.go:241-275 | what a call visits, expands and returns, in order, sharing the visited set with its caller |
| `Traversal.VisitWalks` | translation/parser.go:241-275 | one call expands each of its models once, all reachable, and leaves no edge of theirs unvisited |
| `Traversal.VisitFindsReachable` | translation/parser.go:235-275 | from no visited models the walk is complete |
| `Traversal.CollectNestedTranslatables` | translation/parser.go:237-239 | on any finite graph, cycles and sharing included: every reachable model is expanded exactly once, and the result is what at least one edge reaches, in number the total out-degree |
| `FieldEdges.ModelsOfField` | translation/parser.go:259-309 | a slice of models holds each of its elements that is a model, as often as it is there and in order; nil and other fields hold nothing |
| `FieldEdges.EdgesByField` | translation/parser.go:254-275 | the edges of a struct are what its fields hold, in their order, and what is no struct has none |

## Left out

- TaskTable: `created_at`, the text clean-up of `last_error` and the row limits of SQL types are not modelled; SKIP LOCKED is a set of rows that happen to be locked.
- Processor: the step logs, metrics and spans of a tick, and the pacing of the loop around it.
- Backoffs: float64 rounding; the growth is over the reals.
- Retry.Do: the length of a wait; whether it ran to its end is a parameter.
- Tran: isolation between transactions; a transaction is its list of writes.
- Delivery: domain writes are in the units and not in a table of their own; a task inserted with a key is another producer's.
- AsyncRecorder: Go's preference for a waiting writer of an RW lock; a reader is admitted whenever the writer does not hold the lock, which allows more runs.
- DedupStores.Redis.Acquire: the expiry instant of Redis is exact, and the decoding of a stored value into a Go type is not modelled.
- DedupKeeper.Do: the defaults of the TTL and the lease; the theorems hold for any. The stores are in it through the register, which `DedupStores` proves them to answer as.
- AuditCompare: `removeKeys` deletes in place on maps it just decoded; it is a function on values here, so aliasing is not captured. JSON numbers are integers.
- AuditStore.Store.Create: reads that fail and the metadata of an entry other than as one text; `maybeAutoCompact` is a Compact like any other in `AuditRace`.
- Partition: the lock timeout is not modelled; a table named with and without its schema counts as two tables.
- QueueWorkers.DrainOnTable: other calls between those of the tick, and marks that fail; `QueueInterleaved.TickAmongOthers` has both.
- Pool: an unrecovered panic of a job, which ends the process.
- Traversal.CollectNestedTranslatables: models held by value whose type itself is Translatable are never marked visited and are not modelled; two models at one address count as one.
- Diffs of audit versions, the HTTP, gRPC, gateway and auth middleware, the Kafka and RabbitMQ adapters, metrics, tracing, logging, health, configuration and the scaffolder: plumbing without a protocol of its own.
- The loop pacing, the closer, the event bus, ordering, paging and bulk helpers, and the Redis lock: they would only add easy members.
