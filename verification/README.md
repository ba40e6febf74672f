# Verified models of forge-go

This project models the parts of forge-go that carry state, loops or concurrency, and proves what
their design promises. Every theorem is stated for all inputs, all runs or all reachable states.

| files | part of forge-go |
|---|---|
| `Workers.dfy` | the task dispatcher: one mutex, one condition variable, producers, dispatchers, tasks, limit changes, stop and restart, interleaved in any order |
| `SessionPool.dfy` | the PKCS #11 session pool as separate channel operations and token calls, interleaved in any order |
| `TokenLogin.dfy` | whole `withSession` calls against a token that drops its login with its last session and may restart |
| `FileSystem.dfy`, `AtomicWriter.dfy` | the atomic PEM batch writer over a filesystem in which any call may fail and others may interfere until the last check |
| `Reencryption.dfy` | encrypted PEM envelopes and the change of their secret, on top of the batch writer |
| `SaltedReader.dfy` | the stateful stream reader of the key generator |
| `Calendar.dfy`, `NextRun.dfy` | the cron search over the proleptic Gregorian calendar |
| `JobRegistry.dfy` | job registration, pause, stop, start and restart, and the job loops |
| `JsonScanner.dfy` | the strict JSON structure scanner |
| `GoStrings.dfy`, `KeyUri.dfy` | Go's bytes and string functions; the `pkcs11:` key URI parser and printer |
| `Sanitizer.dfy` | the structural part of the log sanitizer, on value graphs with cycles |
| `Ini.dfy`, `IniStore.dfy` | the INI nested-map builder: as a function, and as the walk that changes maps in place |

Concurrent code is a state machine whose steps are the critical sections, channel operations or
library calls of the source; `Enabled` says when a step can be taken and `Next` what it does. An
invariant is proved for every step and then for every run. Code that works by changing fields is a
class whose methods are proved equal to those steps. Library code that cannot be seen here (hashes,
AEAD, codecs, key normalization, redaction of free text, the token, the disk) is a parameter or an
adversary, never an axiom. A calm disk is one on which no call fails by itself and others act only where
they are asked to; on it the file operations are determined, so that runs can be shown.

What the proofs show about the code beyond its promises:

- Closing a repository takes an idle session out of the pool before it is closed on the token, so the
  pool may open as many others as its capacity allows meanwhile. The token then sees one session more
  than the capacity. A failed C_CloseSession has the same effect for good. The capacity bounds the
  sessions open on the token exactly when neither happens (`SessionPool.BoundedExactlyWithoutDrains`),
  while the sessions the pool itself accounts for are bounded always. The branch of `release` for a
  full pool is never taken.
- A rolled back file gets its permission bits back but not the setuid, setgid and sticky bits. A target
  that is absent or has permission bits alone keeps its mode in every clean failure; any other loses it
  in the run in which only syncFn fails (`AtomicWriter.Writer.WriteFiles`). `AtomicWriter.SetuidIsLost`
  is that run for a setuid program.
- A file that someone changes between being read for re-encryption and being replaced is overwritten
  with what was read, and the call succeeds: `Reencryption.ChangeIsOverwritten` is such a run. When
  nobody acts during the call, what others left last is what is carried over
  (`Reencryption.Generator.UpdateEncryptionSecret`).
- A restarted token that gives out a number the pool still has makes two callers share a session, and
  one may close the other's (`SessionPool.ForeignClose`). Sessions stay unshared exactly when this does
  not happen (`SessionPool.UnsharedExactly`), and it cannot without a restart.
- Nested INI settings answer every assigned path as a flat list of assignments would exactly when no
  assigned path continues another one (`Ini.AnswersExactlyPrefixFree`); otherwise one of the two paths
  is lost or answered with a map.
- An INI document and the same one with its sections written into the keys mean the same exactly when
  no line without a key name is met under a section (`Ini.OnlyPathsMatter`): such a line is refused,
  while its dotted form assigns to the section itself.
- A job that is stopped or paused may still start one execution, in a loop that had passed `canRun` and
  not yet called the function, and no other (`JobRegistry.StoppedJobRunsOut`,
  `JobRegistry.PausedJobRunsOut`).

## Model

| member | source | states |
|---|---|---|
| `Workers.StepInv` | tools/workers/workers.go:54-208 | every critical section keeps the invariant: no lost wakeup, one live dispatcher, conservation of tasks, bounds |
| `Workers.LeadsInv` | tools/workers/workers.go:54-208 | every interleaving of enabled steps keeps the invariant |
| `Workers.ReachableInv` | tools/workers/workers.go:38-208 | every reachable state satisfies the invariant |
| `Workers.SleepersHaveReason` | tools/workers/workers.go:54-80 | in every reachable state a parked producer sees a full queue, and a parked dispatcher is not stopping and has no task or no free slot |
| `Workers.FirstInFirstOut` | tools/workers/workers.go:70-208 | what was handed over followed by the queue is exactly what AddTask accepted, in order; activeTasks is handed over minus finished; across limit changes, stops and restarts |
| `Workers.HandsOverOldest` | tools/workers/workers.go:166-185 | a step takes nothing from the queue or exactly its oldest task, under the next ticket, which in every reachable state no task in flight or finished ever had |
| `Workers.ProducerKeepsItsTask` | tools/workers/workers.go:70-80 | a caller of AddTask keeps its task while it waits, and leaves only by queueing just that task, last |
| `Workers.AcceptsOnlyFromProducers` | tools/workers/workers.go:70-80 | nothing is accepted but the task of a caller that leaves AddTask |
| `Workers.CallsAreConserved` | tools/workers/workers.go:70-80 | on every run, the times a task was accepted and the callers still inside AddTask with it are the times it was submitted |
| `Workers.SettingsAreTheLast` | tools/workers/workers.go:54-65 | the limit and the kind of execution in force are the ones set last |
| `Workers.OneLiveRun` | tools/workers/workers.go:98-208 | at most one run is live, finishRun always finds itself active, stop and done are closed at most once |
| `Workers.LeaveRunInv` | tools/workers/workers.go:199-208 | the run that leaves is the active one, and the invariant is kept |
| `Workers.PeakIsLargestLimit` | tools/workers/workers.go:54-60 | the recorded peak is the largest limit ever set in the run |
| `Workers.WithinLargestLimit` | tools/workers/workers.go:54-185 | active tasks and queue length never exceed the largest limit that was ever in force |
| `Workers.OnlyFallsAboveLimit` | tools/workers/workers.go:43-80 | above the limit in force, active tasks only leave and the queue only shrinks |
| `Workers.SequentialStaysSingle` | tools/workers/workers.go:144-159 | with parallelism kept off from an idle start, at most one task is active, across any number of restarts |
| `Workers.ParallelFreesDispatcher` | tools/workers/workers.go:144-159 | the dispatcher is free for the next task as soon as it started one if and only if parallelism is on |
| `Workers.QueuedTaskIsNotStuck` | tools/workers/workers.go:144-197 | in every reachable state with a live, unstopped run, a positive limit and a queued task, the dispatcher can make a step or some running task can complete |
| `Workers.WaitingProducerIsNotStuck` | tools/workers/workers.go:67-80 | likewise for a goroutine inside AddTask: it can queue its task, or the dispatcher or a running task can go on |
| `Workers.HandedOverSoon` | tools/workers/workers.go:67-197 | while the limit stays and nobody stops the run, whatever producers and other callers do, the task at queue position i has been handed over once dispatcher and running tasks made 5 (i + 1) + 2 activeTasks + room in the queue + 2 steps, and until then one of them can always make a step |
| `Workers.StoppedRunCanMove` | tools/workers/workers.go:98-116 | a stopped run is never asleep: its next step is enabled and brings it closer to its end |
| `Workers.StoppedRunStepsFewTimes` | tools/workers/workers.go:144-208 | whatever everyone else does, a stopped run makes at most five more steps |
| `Workers.StopTerminates` | tools/workers/workers.go:82-116 | after a stop the done channel is closed exactly once or the dispatcher can go on, and it is closed once the dispatcher was scheduled five times |
| `Workers.StartStarts` | tools/workers/workers.go:124-142 | after RunWorkers a run dispatches, a new one exactly when there was none |
| `Workers.StopReachesRun` | tools/workers/workers.go:87-116 | a stop marks the active run and its caller waits for exactly that run; without one nothing is waited for |
| `Workers.Dispatcher.Broadcast` | tools/workers/workers.go:54-60 | a broadcast wakes every parked goroutine and changes nothing else |
| `Workers.Dispatcher.SetWorkersLimit` | tools/workers/workers.go:54-60 | the critical section is the step SetLimit, and the invariant is kept |
| `Workers.Dispatcher.AddTask` | tools/workers/workers.go:70-80 | one pass queues the task and wakes everyone, or parks the producer; the invariant is kept |
| `Workers.Dispatcher.SignalStop` | tools/workers/workers.go:98-116 | the active run is marked, its stop channel closed once, and everyone woken; the invariant is kept |
| `Workers.Dispatcher.RunWorkers` | tools/workers/workers.go:125-142 | a run is started unless one is active; the invariant is kept |
| `Workers.Dispatcher.Dispatch` | tools/workers/workers.go:144-159 | the task gets its own goroutine or is executed in place, as parallelism says; the invariant is kept |
| `Workers.Dispatcher.NextTask` | tools/workers/workers.go:166-185 | one pass finishes, parks, or takes the oldest task and a slot; the invariant is kept |
| `Workers.Dispatcher.ReleaseExecutionSlot` | tools/workers/workers.go:187-197 | the slot is freed and everyone woken; the invariant is kept |
| `Workers.Dispatcher.FinishRun` | tools/workers/workers.go:199-208 | the package forgets the run if it is the active one; the invariant is kept |
| `SessionPool.StepWithinCapacity` | encrypt/pkcs11/session.go:196-258 | every channel operation and token call keeps idle plus opening, held and closing sessions within the capacity, and the semaphore equal to the permits taken |
| `SessionPool.StepExclusive` | encrypt/pkcs11/session.go:173-258 | a step keeps handles unshared if and only if it does not give out a number the pool still has |
| `SessionPool.StepOpenCounted` | encrypt/pkcs11/session.go:196-258 | until a restart every step keeps the token's open sessions equal in number to the idle, owned and leaked ones |
| `SessionPool.StepCovered` | encrypt/pkcs11/session.go:196-258 | whatever the token does, restarts included, every session it has open is idle, owned or leaked |
| `SessionPool.StepInv` | encrypt/pkcs11/session.go:196-258 | every step, token restarts included, keeps the capacity and the cover of the open sessions |
| `SessionPool.LeadsInv` | encrypt/pkcs11/session.go:176-258 | so does every interleaving, and the capacity stays |
| `SessionPool.CapacityHolds` | encrypt/pkcs11/session.go:182-258 | in every reachable state idle, held, opening and closing sessions together fit the capacity |
| `SessionPool.OpenSessionsBounded` | encrypt/pkcs11/session.go:196-258 | sessions open on the token exceed the capacity at most by those being drained and those whose close failed |
| `SessionPool.BoundedExactlyWithoutDrains` | encrypt/pkcs11/session.go:196-258 | for every capacity, the open sessions stay within it on every run if and only if nothing is drained and no close fails |
| `SessionPool.DrainGap` | encrypt/pkcs11/session.go:246-258 | for every capacity, a run with one drain that opens one session too many |
| `SessionPool.LeakGap` | encrypt/pkcs11/session.go:226-229 | for every capacity, a run with one failed close that opens one session too many |
| `SessionPool.NoSharedHandle` | encrypt/pkcs11/session.go:173-175 | without a restart, or if a restarted token reuses no number the pool has, no handle is held by two goroutines, or held and idle |
| `SessionPool.UnsharedExactly` | encrypt/pkcs11/session.go:173-258 | handles are unshared at every moment of a run if and only if no step gives out a number the pool still has |
| `SessionPool.NothingReusedWithoutRestart` | encrypt/pkcs11/session.go:196-258 | on a run without a restart nothing is reused and the books of open sessions are exact |
| `SessionPool.ForeignClose` | encrypt/pkcs11/session.go:223-229 | for every capacity from two, a run in which a restarted token reuses a number and the old holder closes the session of the new one |
| `SessionPool.PoolNeverFull` | encrypt/pkcs11/session.go:231-237 | the branch for a full pool is unreachable |
| `SessionPool.PermitCanBeReturned` | encrypt/pkcs11/session.go:213-224 | giving a permit back never blocks |
| `SessionPool.NewPool` | encrypt/pkcs11/session.go:182-191 | the capacity is the requested size, and at least one |
| `SessionPool.PoolSize` | encrypt/pkcs11/session.go:335-351 | the configured maximum, which options keep positive, clamped to a non-zero maximum of the slot, for a slot listed once; the configured one when the slots cannot be read |
| `SessionPool.PoolWithinTokenLimit` | encrypt/pkcs11/session.go:182-351 | a pool sized so stays within both the configured and the token's maximum on every run |
| `SessionPool.Pool.constructor` | encrypt/pkcs11/session.go:182-191 | the new pool is empty with that capacity |
| `SessionPool.Pool.TakePermit` | encrypt/pkcs11/session.go:201-205 | a permit is taken |
| `SessionPool.Pool.LookForIdle` | encrypt/pkcs11/session.go:207-211 | the oldest idle session is taken, or none is idle |
| `SessionPool.Pool.OpenSession` | encrypt/pkcs11/session.go:213-218 | a session is opened, or the permit, which is always there, given back; the invariants are kept |
| `SessionPool.Pool.Dispose` | encrypt/pkcs11/session.go:223-238 | a dead session is to be closed, and another one always finds room in the channel; the invariants are kept |
| `SessionPool.Pool.CloseSession` | encrypt/pkcs11/session.go:226-229 | the session is closed or leaked, the permit still held |
| `SessionPool.Pool.GivePermit` | encrypt/pkcs11/session.go:224 | the permit can always be given back; the invariants are kept |
| `SessionPool.Pool.DrainOne` | encrypt/pkcs11/session.go:246-258 | one idle session leaves the pool, or the drain ends |
| `SessionPool.Pool.DrainClose` | encrypt/pkcs11/session.go:251-253 | the drained session is closed or leaked |
| `SessionPool.Pool.TokenRestarts` | encrypt/pkcs11/session.go:165-171 | the token forgets its sessions, and the invariants are kept |
| `TokenLogin.CallKeepsLogin` | encrypt/pkcs11/backend.go:31-68 | every call keeps the cached login in agreement with the token |
| `TokenLogin.OperationRunsLoggedIn` | encrypt/pkcs11/backend.go:63-68 | an operation on a session the token knows runs logged in |
| `TokenLogin.NoLoginIsReported` | encrypt/pkcs11/backend.go:31-68 | a call ends with CKR_USER_NOT_LOGGED_IN only if the token or the caller answers it regardless of the login state |
| `TokenLogin.EvictsExactly` | encrypt/pkcs11/session.go:221-278 | a session is given up if and only if the call ended with one of seven codes; it is then closed on the token and the login forgotten, and with the last session the login on the token ends |
| `TokenLogin.CallEvictsExactly` | encrypt/pkcs11/backend.go:49-59 | a whole call gives up the session it got exactly then, and otherwise puts it back last |
| `TokenLogin.EveryErrorIsReported` | encrypt/pkcs11/backend.go:31-68 | no error is swallowed or made up: what refuses, opens, authenticates or operates is what the call reports |
| `TokenLogin.LoginIsRemembered` | encrypt/pkcs11/session.go:145-171 | the login is remembered if and only if it was before or has just succeeded, unless the session is given up |
| `TokenLogin.DrainClosesEverySession` | encrypt/pkcs11/session.go:240-258 | closing a repository closes every idle session, and with the last session the login on the token ends |
| `TokenLogin.AlwaysLoggedIn` | encrypt/pkcs11/backend.go:31-68 | the same after any sequence of calls, token restarts and closes; no operation meets CKR_USER_NOT_LOGGED_IN |
| `TokenLogin.StaleSessionEvicted` | encrypt/pkcs11/backend.go:54-59 | a call that touches the token with a stale session fails, evicts exactly that session and forgets the login |
| `TokenLogin.PooledCall` | encrypt/pkcs11/session.go:223-238 | a pooled session goes back to the end of the pool or leaves it, alone |
| `TokenLogin.StaleOnlyLeaves` | encrypt/pkcs11/session.go:221-278 | without another restart stale sessions only leave, one per stale failure |
| `TokenLogin.FewStaleFailures` | encrypt/pkcs11/session.go:165-278 | however many calls follow a restart, at most as many fail on a stale session as were idle |
| `TokenLogin.Recovers` | encrypt/pkcs11/session.go:165-171 | after a restart exactly the calls that meet the old idle sessions fail, and the next one opens a session, logs in and succeeds |
| `TokenLogin.Slot.Acquire` | encrypt/pkcs11/session.go:196-219 | an idle session, else a new one, else the error of the token |
| `TokenLogin.Slot.Login` | encrypt/pkcs11/session.go:145-163 | logs in once, with "already logged in" taken as success |
| `TokenLogin.Slot.RunLoggedIn` | encrypt/pkcs11/backend.go:63-68 | login, then the operation, with restarts before either |
| `TokenLogin.Slot.Release` | encrypt/pkcs11/session.go:223-278 | a dead session is closed and the login forgotten, another one is pooled |
| `TokenLogin.Slot.WithSession` | encrypt/pkcs11/backend.go:31-60 | the whole call, error paths included; it keeps the login flag in agreement with the token and reports a missing login only if the environment does |
| `TokenLogin.Slot.Drain` | encrypt/pkcs11/session.go:93-114 | every idle session is closed and the login flag reset, so that flag and token agree |
| `TokenLogin.Token.CloseSession` | encrypt/pkcs11/session.go:240-245 | the token drops the login with its last session |
| `AtomicWriter.Wipe` | cmd/go-openssl/code/atomic.go:272-277 | the buffer is all zero |
| `AtomicWriter.CommitOne` | cmd/go-openssl/code/atomic.go:96-107 | one rename turns "the first k are new, the rest untouched and staged" into the same for k + 1 |
| `AtomicWriter.RollbackOne` | cmd/go-openssl/code/atomic.go:201-231 | one round of the reverse loop keeps "new below, restored above, untouched after the replaced ones", and a failed round damages only its own target |
| `AtomicWriter.Writer.ValidateAtomicTarget` | cmd/go-openssl/code/atomic.go:117-138 | an accepted path is not empty, resolves, was not seen before, and its parent is a directory; on a calm disk every such path is accepted |
| `AtomicWriter.Writer.Snapshot` | cmd/go-openssl/code/atomic.go:61-80 | what the target holds when it is read: exactly the regular file there, or nothing if there is none, with interference between inspection and reading; on a calm disk it fails exactly for other nodes and files over 16 MiB |
| `AtomicWriter.Writer.StageContent` | cmd/go-openssl/code/atomic.go:168-199 | a new temporary file with exactly the content and permissions, or none left behind |
| `AtomicWriter.Writer.StageOne` | cmd/go-openssl/code/atomic.go:52-89 | one target is validated, snapshotted and staged; the recorded existence, content and permissions are those of the target; on a calm disk exactly a good target is |
| `AtomicWriter.Writer.StageAll` | cmd/go-openssl/code/atomic.go:47-89 | all targets are staged, are different, and nothing but temporary files was written; on a calm disk exactly when the batch is good |
| `AtomicWriter.Writer.GoodAsStaged` | cmd/go-openssl/code/atomic.go:117-138 | what the staging loop finds out one target after the other is that every path is not empty, resolves, has a directory as parent and an absent or readable regular target, and that no two are the same |
| `AtomicWriter.Writer.Cleanup` | cmd/go-openssl/code/atomic.go:233-239 | the remaining temporary files are removed |
| `AtomicWriter.Writer.ValidateUnchanged` | cmd/go-openssl/code/atomic.go:241-270 | if it passes, every target's existence, content and permissions are those of its snapshot; on a calm disk it passes if they are |
| `AtomicWriter.Writer.Commit` | cmd/go-openssl/code/atomic.go:96-107 | a prefix of the targets is new, the others untouched |
| `AtomicWriter.Writer.Restore` | cmd/go-openssl/code/atomic.go:209-227 | on success the target is gone again, or has its original content and the permission bits of its original mode, so that mode entirely exactly when it had no other bits; on failure it is still complete |
| `AtomicWriter.Writer.Rollback` | cmd/go-openssl/code/atomic.go:201-231 | without an error every replaced target is restored so; the others were never touched; in any case none is a mixture |
| `AtomicWriter.Writer.CommitOrRollback` | cmd/go-openssl/code/atomic.go:96-115 | all new, or all restored, or, with a reported rollback error, each one complete; only the counted ones were ever replaced |
| `AtomicWriter.Writer.WriteFiles` | cmd/go-openssl/code/atomic.go:34-115 | success: every target has its new content and mode and no temporary file is left; clean failure: every path has the content and permission bits others left; always: no target is a mixture; nothing is replaced unless every snapshot still matches; on a calm disk a good batch succeeds exactly when syncFn does and is otherwise put back, a bad one changes nothing, and after the former failure a target has its original mode if and only if it is absent or had permission bits alone |
| `AtomicWriter.Writer.WriteAndWipe` | cmd/go-openssl/code/atomic.go:38-50 | the same for the paths and contents of the caller's buffers, which are all zero afterwards |
| `AtomicWriter.SetuidIsLost` | cmd/go-openssl/code/atomic.go:201-231 | a run: a setuid program is the one target on a calm disk and syncFn fails; the failure is clean, the content is back, and the mode is 0o755 instead of 0o4755 |
| `SaltedReader.Source.StreamLength` | cmd/go-openssl/code/generator.go:934-943 | n blocks are 32 n bytes |
| `SaltedReader.Source.StreamGrows` | cmd/go-openssl/code/generator.go:920-943 | a longer stream extends a shorter one |
| `SaltedReader.Source.OutputsAgree` | cmd/go-openssl/code/generator.go:920-943 | two outputs of the same source agree as far as the shorter one goes, however they were read |
| `SaltedReader.EightBytes` | cmd/go-openssl/code/generator.go:939-940 | the bytes of the counter are the eight whose number, most significant byte first, it is |
| `SaltedReader.Source.BlockInput` | cmd/go-openssl/code/generator.go:934-943 | a block is the hash of seed, salt and those bytes, in this order |
| `SaltedReader.Source.StreamIsBlocks` | cmd/go-openssl/code/generator.go:934-943 | bytes 32 i to 32 (i + 1) of the stream are block i, counted from 0 |
| `SaltedReader.SaltedReader.NextBlock` | cmd/go-openssl/code/generator.go:934-943 | output and buffer together stay the blocks produced, with the 64-bit counter wrapping |
| `SaltedReader.SaltedReader.Copy` | cmd/go-openssl/code/generator.go:925-930 | the copied bytes move from the buffer to the output |
| `SaltedReader.SaltedReader.Read` | cmd/go-openssl/code/generator.go:920-932 | the slice is filled with the next bytes of block(0), block(1), … |
| `Reencryption.EncryptThenDecrypt` | cmd/go-openssl/code/generator.go:682-804 | what encryptPEM writes, DecryptPEM reads back under the same secret, as version 2; encryption succeeds exactly for secrets of at least 32 bytes |
| `Reencryption.OpensExactly` | cmd/go-openssl/code/generator.go:682-746 | an envelope decrypts to a plaintext if and only if the secret is long enough and it opens so: version 1 under the SHA-256 key, bound to its kind, or version 2 under the Argon2id key of a 16-byte salt with exactly the current parameters, bound to all of them |
| `Reencryption.OtherContent` | cmd/go-openssl/code/generator.go:682-694 | content without an envelope comes back as it is; an envelope without a payload is refused |
| `Reencryption.AadBindsItsFields` | cmd/go-openssl/code/generator.go:861-874 | equal associated data means equal kind, version, algorithm and parameters |
| `Reencryption.LegacyOpens` | cmd/go-openssl/code/generator.go:704-707 | a version-1 envelope opens under its secret to its plaintext, whatever its other fields are |
| `Reencryption.AcceptsOptions` | cmd/go-openssl/code/generator.go:425-455 | options are accepted exactly with three non-blank paths and two different, non-blank secrets of at least 32 bytes, and only the paths are trimmed |
| `Reencryption.ReencryptCarries` | cmd/go-openssl/code/generator.go:300-320 | a re-encrypted envelope, of version 1 or 2, decrypts under the new secret to what it was under the old one, and is version 2 |
| `Reencryption.LegacyIsUpgraded` | cmd/go-openssl/code/generator.go:300-320 | re-encrypting a version-1 envelope succeeds and gives a version-2 one with the same plaintext under the new secret |
| `Reencryption.ChangeIsOverwritten` | cmd/go-openssl/code/generator.go:289-320 | a run: a certificate is read for re-encryption, someone else writes any other content in its place, the batch writer succeeds, and the file decrypts to the content read |
| `Reencryption.Generator.Prepare` | cmd/go-openssl/code/generator.go:300-320 | the update carries over the content of the file it read; if nothing fails by itself, exactly for an envelope of the kind that opens under the old secret |
| `Reencryption.Generator.PrepareAll` | cmd/go-openssl/code/generator.go:270-287 | three updates of the right kinds and modes, each carrying over its file; if nothing fails by itself, exactly when all three can be |
| `Reencryption.Generator.UpdateEncryptionSecret` | cmd/go-openssl/code/generator.go:259-298 | success: certificate, private key and public key are in place by kind, in version 2, with modes 0o644, 0o600 and 0o644, and each decrypts under the new secret to what it did under the old one when the call began; clean failure: every file has the content and permissions others left; failed rollback: each file is as others left it, has the bytes they left, or carries over what was read; if nothing fails by itself and nobody acts during the call, it succeeds exactly for valid options and three envelopes at different, replaceable places, and carries over what others left last |
| `Calendar.YearLength` | tools/jobs/jobs.go:817-819 | the closed form of the year's first day advances by 365 or 366 days |
| `Calendar.MonthEndsBeforeNext` | tools/jobs/jobs.go:817-819 | daysInMonth is the day before the first of the next month |
| `Calendar.MonthsFromMarch` | tools/jobs/jobs.go:817-819 | counted from March, month m begins after (153 m + 2) / 5 days: 31, 30, 31, 30, 31, over and over; January has 31 days and February the leap day |
| `Calendar.DaysFromCivil` | tools/jobs/jobs.go:817-819 | the number of a date equals a closed form that knows neither leap years nor lengths of months |
| `Calendar.DatesIncrease` | tools/jobs/jobs.go:776-803 | day numbers order valid dates exactly as year, month, day do |
| `Calendar.Cycle` | tools/jobs/jobs.go:769-770 | leap years and day numbers repeat after 400 years |
| `Calendar.YearOfDay` | tools/jobs/jobs.go:769-770 | every day lies in exactly one year |
| `NextRun.FoundIsNext` | tools/jobs/jobs.go:795-801 | the first date found after now is the first there is |
| `NextRun.FourHundredYearsSuffice` | tools/jobs/jobs.go:769-805 | if no date up to 400 years on matches, none ever does |
| `NextRun.FixedYearPassed` | tools/jobs/jobs.go:771-774 | with a fixed year, nothing is missed outside it |
| `NextRun.InvalidNeverMatches` | tools/jobs/jobs.go:807-815 | a trigger refused by validTrigger matches no instant |
| `NextRun.ValidFieldsOccur` | tools/jobs/jobs.go:807-815 | a trigger is refused if and only if one of its fields, taken alone, never occurs |
| `NextRun.TimeIsReadBack` | tools/jobs/jobs.go:795-796 | the wall clock of the zone shows at a matching instant the hour, minute and second of the trigger and a date it allows |
| `NextRun.WallClockMatches` | tools/jobs/jobs.go:795-796 | every whole second at which the wall clock shows them is a matching instant |
| `NextRun.SearchMonth` | tools/jobs/jobs.go:784-801 | the least matching instant, or every match up to the end of the month has passed |
| `NextRun.SearchYear` | tools/jobs/jobs.go:777-803 | the same for a year |
| `NextRun.NextRun` | tools/jobs/jobs.go:763-805 | in a zone with a fixed offset, the least matching instant strictly after now; none exactly when there is none in any year |
| `NextRun.NextDelay` | tools/jobs/jobs.go:755-761 | a positive delay to that instant |
| `NextRun.EveryInstantHasYear` | tools/jobs/jobs.go:769 | the current year exists for every instant and offset |
| `NextRun.NextIsUnique` | tools/jobs/jobs.go:763-805 | there is only one such answer |
| `NextRun.RunsForeverUnlessImpossible` | tools/jobs/jobs.go:763-805 | a valid trigger without a year has a next run from every instant if and only if it names no day its month never has |
| `NextRun.RunsIncrease` | tools/jobs/jobs.go:682-707 | the daily loop runs at strictly increasing matching instants |
| `NextRun.SkipsOnlyThePassed` | tools/jobs/jobs.go:682-707 | a match between two runs had passed before the clock was read again |
| `JobRegistry.RemoveInPlace` | tools/jobs/jobs.go:568-586 | the kept items at the front of the same array are the plain filter of the old list |
| `JobRegistry.AgreeInsert` | tools/jobs/jobs.go:161-252 | registering a new id keeps definitions and controls in agreement |
| `JobRegistry.AgreeWithout` | tools/jobs/jobs.go:529-546 | filtering an id out of the definitions and the controls keeps them in agreement |
| `JobRegistry.NewEpochDistinct` | tools/jobs/jobs.go:309-331 | a start launches every definition once and repeats no launch |
| `JobRegistry.StepInv` | tools/jobs/jobs.go:161-753 | every call and every step of a job loop keeps the registry and lifecycle invariants |
| `JobRegistry.AfterInv` | tools/jobs/jobs.go:161-403 | so does every sequence of calls |
| `JobRegistry.RegistryHolds` | tools/jobs/jobs.go:486-586 | after any calls control ids are the disjoint union of interval and cron ids, definitions point to their mapped controls, no mapped control is stopped, and a control's channel is closed once if and only if it is stopped |
| `JobRegistry.LifecycleHolds` | tools/jobs/jobs.go:281-403 | after any calls every definition was launched in the running epoch and no loop twice in any; no loop is alive after a stop returned; the status flag agrees with started between lifecycle calls |
| `JobRegistry.ClearedKeepsLaunches` | tools/jobs/jobs.go:333-356 | when stop returns no loop is alive, also when there was nothing to wait for |
| `JobRegistry.StopWaitsForFewer` | tools/jobs/jobs.go:333-341 | while a stop waits nothing is launched and the live loops only get fewer |
| `JobRegistry.StopReturns` | tools/jobs/jobs.go:333-341 | after any calls, the loops a pending stop waits for have all been told by a closed channel, and at most three steps of each, a running function returning among them, let it go on |
| `JobRegistry.ToldLoopCanEnd` | tools/jobs/jobs.go:656-676 | a loop that was told ends after at most one more execution, from wherever it is |
| `JobRegistry.OnlyTheDueExecution` | tools/jobs/jobs.go:554-566 | while a job may not run, whatever anyone does, a loop makes no execution but one for which it had already passed canRun |
| `JobRegistry.StoppedJobRunsOut` | tools/jobs/jobs.go:529-566 | after StopJob each loop of the job starts at most one more execution, and none unless it sat between canRun and the call; whatever is called afterwards |
| `JobRegistry.PausedJobRunsOut` | tools/jobs/jobs.go:499-512 | the same after PauseJob, across restarts, until the job is resumed |
| `JobRegistry.StoppedAfterLookup` | tools/jobs/jobs.go:503-509 | a job stopped after pauseJob or resumeJob looked it up is found stopped |
| `JobRegistry.NothingRunsWhileStopped` | tools/jobs/jobs.go:333-356 | once a stop returned, no job function is called before the next start |
| `JobRegistry.RunsExactlyWhenAllowed` | tools/jobs/jobs.go:554-556 | a loop at its select that tests and goes on calls the function if and only if its job is neither stopped nor paused |
| `JobRegistry.RegisteredJobRuns` | tools/jobs/jobs.go:161-331 | a job registered with a stopped scheduler is executed after StartJobs |
| `JobRegistry.RegisterAdds` | tools/jobs/jobs.go:161-252 | a new id adds one definition at the end of its list, with a control of its own that is neither stopped nor paused, and its loop exactly if the scheduler runs; a known or empty id changes nothing |
| `JobRegistry.StopsOnlyThatJob` | tools/jobs/jobs.go:529-566 | StopJob removes exactly the definition with the id and stops exactly its control |
| `JobRegistry.StoppedLoopEnds` | tools/jobs/jobs.go:670-671 | the loop of a stopped job ends when it is next at its select |
| `JobRegistry.PausesOnlyThatJob` | tools/jobs/jobs.go:499-527 | pausing and resuming set the flag of that control, unless it is stopped, and nothing else |
| `JobRegistry.StartLaunchesEveryJob` | tools/jobs/jobs.go:309-331 | StartJobs starts the loop of every definition in a new epoch, unless in test mode or running |
| `JobRegistry.StopTellsEveryLoop` | tools/jobs/jobs.go:333-341 | a stop ends the epoch, tells every loop and leaves definitions alone |
| `JobRegistry.StopKeepsDefinitionsUnlessClearing` | tools/jobs/jobs.go:345-403 | after the wait the definitions are as before, or, if they are cleared, gone with every control stopped |
| `JobRegistry.RestartLaunchesEveryJob` | tools/jobs/jobs.go:287-298 | RestartJobs starts every definition again |
| `JobRegistry.StepSkipsStopped` | tools/jobs/jobs.go:430-436 | no call launches a stopped job |
| `JobRegistry.StoppedNeverLaunched` | tools/jobs/jobs.go:430-436 | a stopped job is never launched again, whatever is called |
| `JobRegistry.ValidateRequest` | tools/jobs/jobs.go:621-642 | a missing function, a non-positive interval, an invalid trigger, and a trigger without a later match are refused, in this order |
| `JobRegistry.Jobs.JobWithId` | tools/jobs/jobs.go:151-252 | empty id, refused request, and duplicate id in this order; otherwise the definition, its control, and the launch if the scheduler runs; the invariants are kept |
| `JobRegistry.Jobs.JobWithNewId` | tools/jobs/jobs.go:139-149 | the same under the next id of the counter, which fails as a duplicate if a caller chose it before |
| `JobRegistry.Jobs.AddJob` | tools/jobs/jobs.go:161-181 | the registration of a valid request; the invariants are kept |
| `JobRegistry.Jobs.LookUp` | tools/jobs/jobs.go:499-506 | the control of the id, which is not stopped at that moment, or the error |
| `JobRegistry.Jobs.SetFlag` | tools/jobs/jobs.go:507-527 | the flag of a control looked up before is set, unless it has been stopped since; the invariants are kept |
| `JobRegistry.Jobs.StopJob` | tools/jobs/jobs.go:529-546 | the definition and the control are removed through the in-place filter and the control stopped; the invariants are kept |
| `JobRegistry.Jobs.StartJobs` | tools/jobs/jobs.go:281-331 | every definition is launched unless the scheduler runs or test mode is on; the invariants are kept |
| `JobRegistry.Jobs.Launch` | tools/jobs/jobs.go:324-329 | the loops over the definitions launch each of them, in order |
| `JobRegistry.Jobs.BeginStop` | tools/jobs/jobs.go:333-339 | the stop channel is closed if the scheduler was running; the invariants are kept |
| `JobRegistry.Jobs.FinishStop` | tools/jobs/jobs.go:287-403 | what follows the wait: clear, the status flag, and the restart; the invariants are kept |
| `JobRegistry.Jobs.TestRun` | tools/jobs/jobs.go:554-556 | a loop passes canRun if and only if its control is neither stopped nor paused; the invariants are kept |
| `JobRegistry.Jobs.ClearAll` | tools/jobs/jobs.go:345-356 | every control is stopped and all definitions are gone |
| `JobRegistry.Jobs.StopControls` | tools/jobs/jobs.go:350-352 | exactly the mapped controls are stopped |
| `JsonScanner.ScansTree` | share/portable/json.go:60-111 | scanning the tokens of a tree leaves exactly what follows them, or reports the first repeated name in reading order if there is one |
| `JsonScanner.ScansItems` | share/portable/json.go:97-106 | the same for the elements of an array |
| `JsonScanner.ScansMembers` | share/portable/json.go:74-96 | the same for the members of an object |
| `JsonScanner.NoRepeatMeansUnique` | share/portable/json.go:85-88 | there is no first repeated name exactly when every object has unique names |
| `JsonScanner.AcceptsTree` | share/portable/json.go:60-111 | whatever the scan accepts is the tokens of a tree within depth, with unique names |
| `JsonScanner.TokensDetermineTree` | share/portable/json.go:60-111 | tokens determine the tree and where it ends |
| `JsonScanner.AcceptsExactlySerializations` | share/portable/json.go:55-120 | a token stream is accepted if and only if it serializes one tree of depth at most maxDepth with unique names in every object |
| `JsonScanner.SerializedTreeIsUnique` | share/portable/json.go:55-120 | that tree is unique |
| `JsonScanner.RepeatedNamesAreReported` | share/portable/json.go:85-88 | a tree within the depth that repeats a name gets the duplicate error, carrying the first such name in reading order |
| `JsonScanner.DuplicatesAreReal` | share/portable/json.go:85-87 | for any input, a duplicate is reported only for a name its object had before |
| `JsonScanner.OtherwiseInvalid` | share/portable/json.go:55-120 | input without a repeated name is accepted as a serialization within the limits or refused as invalid |
| `JsonScanner.AfterValue` | share/portable/json.go:60-111 | every accepted value consumes a token |
| `JsonScanner.Decoder.ScanValue` | share/portable/json.go:60-111 | the cursor ends where the scan function says, with its error |
| `JsonScanner.Decoder.ScanObject` | share/portable/json.go:74-96 | the same for the loop over members |
| `JsonScanner.Decoder.ScanArray` | share/portable/json.go:97-106 | the same for the loop over elements |
| `JsonScanner.ValidateStructure` | share/portable/json.go:55-120 | accepts exactly the serializations |
| `GoStrings.SplitJoin` | encrypt/pkcs11/uri.go:111 | splitting undoes joining parts without the separator |
| `GoStrings.TrimAround` | encrypt/pkcs11/uri.go:90 | TrimSpace removes all white space, by Unicode code point, around a visible text and nothing else |
| `GoStrings.NothingLeftToTrim` | tools/utilities/ini.go:129 | what TrimSpace leaves neither begins nor ends with white space |
| `GoStrings.DecimalIsInjective` | tools/jobs/jobs.go:482-484 | different counters give different generated ids |
| `KeyUri.UnescapeEscape` | encrypt/pkcs11/uri.go:226-238 | arbitrary bytes survive escaping and unescaping |
| `KeyUri.EscapeIsPlain` | encrypt/pkcs11/uri.go:207-222 | escaped values contain no separator |
| `KeyUri.PercentDecodes` | encrypt/pkcs11/uri.go:119-122 | a percent-encoded byte is decoded, with digits of either case |
| `KeyUri.BrokenPercentIsRefused` | encrypt/pkcs11/uri.go:119-122 | a percent sign without two hexadecimal digits is refused |
| `KeyUri.ClassesInvert` | encrypt/pkcs11/uri.go:52-85 | classFromType and typeFromClass are inverse, on exactly the five classes |
| `KeyUri.ClassesByNumber` | encrypt/pkcs11/uri.go:21-85 | the type names are those of the object classes data, cert, public, private and secret-key, numbered 0 to 4 |
| `KeyUri.ParsePrint` | encrypt/pkcs11/uri.go:89-200 | parsing the printed form gives the URI back up to a class without a name, and fails exactly without object and id |
| `KeyUri.PrintedForm` | encrypt/pkcs11/uri.go:168-200 | the printed form is token, object, id and type in this order, escaped, with separators |
| `KeyUri.ReferenceMeans` | encrypt/pkcs11/uri.go:89-148 | a reference is accepted if and only if its query names no PIN and its attributes can be read and set an object or id; it means what they set |
| `KeyUri.NoPinExactly` | encrypt/pkcs11/uri.go:154-166 | a query is let through if and only if none of its fields is named pin-value or pin-source |
| `KeyUri.PinIsRefused` | encrypt/pkcs11/uri.go:102-104 | a reference whose query has such a field is refused |
| `KeyUri.TokenIsSet` | encrypt/pkcs11/uri.go:125-126 | the token attribute sets the token |
| `KeyUri.ObjectIsSet` | encrypt/pkcs11/uri.go:127-128 | the object attribute sets the object |
| `KeyUri.IdIsSet` | encrypt/pkcs11/uri.go:129-130 | the id attribute sets the id |
| `KeyUri.ClassIsSet` | encrypt/pkcs11/uri.go:131-137 | the type attribute sets the class, or is refused |
| `KeyUri.UnknownIsIgnored` | encrypt/pkcs11/uri.go:138-141 | an attribute with another name is read over, if its value can be decoded |
| `KeyUri.MalformedIsRefused` | encrypt/pkcs11/uri.go:112-118 | a segment without an equals sign is refused unless it is empty |
| `KeyUri.SpaceAroundIsIgnored` | encrypt/pkcs11/uri.go:90 | white space around a reference does not matter |
| `KeyUri.AcceptedHasObjectOrId` | encrypt/pkcs11/uri.go:91-146 | an accepted reference has the scheme and an object or an id |
| `KeyUri.RoundTrip` | encrypt/pkcs11/uri.go:87-200 | the round trip is exact if and only if the URI has an object or id and a valid or absent class |
| `KeyUri.ParsedClassIsValid` | encrypt/pkcs11/uri.go:131-137 | an accepted URI has one of the five classes or none |
| `KeyUri.PrintIsStable` | encrypt/pkcs11/uri.go:168-200 | for every accepted input, printing and parsing again changes nothing |
| `KeyUri.EscapeAttribute` | encrypt/pkcs11/uri.go:226-238 | the loop builds the escaped form, which unescapes to the value |
| `KeyUri.JoinAttributes` | encrypt/pkcs11/uri.go:174-183 | the builder joins the attributes with separators |
| `KeyUri.Format` | encrypt/pkcs11/uri.go:170-200 | what is printed parses back exactly for complete URIs |
| `KeyUri.ParseKeyUri` | encrypt/pkcs11/uri.go:89-166 | the parsing loop with its error cases, and stability of what it accepts |
| `Sanitizer.CheckSensitive` | logger/sanitizer/sanitizer.go:313-327 | a key is sensitive exactly when its normal form is not empty and contains a configured key |
| `Sanitizer.SensitiveExactly` | logger/sanitizer/sanitizer.go:313-331 | a key is sensitive if and only if its normal form is not empty and has a configured key somewhere inside |
| `Sanitizer.New` | logger/sanitizer/sanitizer.go:37-48 | exactly the non-empty normal forms of the given keys are configured |
| `Sanitizer.SanitizedIsSafe` | logger/sanitizer/sanitizer.go:145-255 | on every graph, cyclic or not, every entry under a sensitive key at any level is the marker or a list of markers, and nothing but nil and the marker survives below depth 32 |
| `Sanitizer.HiddenDoesNotShow` | logger/sanitizer/sanitizer.go:145-255 | noninterference: values under sensitive keys or beyond the depth bound may change at will without changing the output |
| `Sanitizer.PathsAreKept` | logger/sanitizer/sanitizer.go:163-249 | a value within the bound and under no sensitive key has its own sanitized form at the same keys and positions; under a last sensitive key stands the marker |
| `Sanitizer.ShownValuesBecome` | logger/sanitizer/sanitizer.go:156-270 | a value at most 32 steps away under no sensitive key is shown in its place as what its kind becomes: text cleaned, string maps and lists cleaned or redacted entry by entry, other scalars as they are, maps and lists with the same keys and length |
| `Sanitizer.DeepValuesAreMarked` | logger/sanitizer/sanitizer.go:149-154 | a value 33 steps away becomes the marker unless it is nil |
| `Sanitizer.LastEntryStays` | logger/sanitizer/sanitizer.go:228-239 | of map entries with the same printed key, the last one stays |
| `Sanitizer.Headers` | logger/sanitizer/sanitizer.go:113-135 | nil or disabled: unchanged; else each list keeps its length and is redacted or cleaned |
| `Sanitizer.Value` | logger/sanitizer/sanitizer.go:137-143 | a disabled sanitizer gives the value back; otherwise the copy is redacted, bounded, and what the kind of the value becomes |
| `Sanitizer.CleanHeaders` | logger/sanitizer/sanitizer.go:119-134 | the loop over the lists |
| `Sanitizer.CleanStringMap` | logger/sanitizer/sanitizer.go:169-178 | the loop over a string map |
| `Sanitizer.ValueOf` | logger/sanitizer/sanitizer.go:145-155 | sensitive key, nil and depth come first, in this order |
| `Sanitizer.ValueOfNode` | logger/sanitizer/sanitizer.go:156-270 | the cases of value, reflectValue and structValue |
| `Sanitizer.ValueOfChildren` | logger/sanitizer/sanitizer.go:163-168 | the loop over a map builds the sanitized copy |
| `Sanitizer.ValueOfItems` | logger/sanitizer/sanitizer.go:196-201 | the loop over a list |
| `Sanitizer.ValueOfEntries` | logger/sanitizer/sanitizer.go:228-239 | the loop over a map of another type |
| `Ini.GetAssigned` | tools/utilities/ini.go:191-211 | whatever is in the way, the assigned path then holds its old values and the new one |
| `Ini.GetOther` | tools/utilities/ini.go:193-211 | a path that neither continues nor is continued by the assigned one keeps its value |
| `Ini.GetBelow` | tools/utilities/ini.go:193-202 | what has a value below it holds a map |
| `Ini.ApartIsAnswered` | tools/utilities/ini.go:121-227 | a path apart from or equal to the assigned ones is answered with the lone value, or the in-order concatenation of all its values |
| `Ini.RepeatedValues` | tools/utilities/ini.go:191-211 | repeated plain values become a list of them, in order |
| `Ini.RepeatedLists` | tools/utilities/ini.go:213-227 | repeated lists become one list, and the strings of a string list its items |
| `Ini.NestedIsWrong` | tools/utilities/ini.go:193-211 | of two paths one of which continues the other, one is answered wrongly |
| `Ini.AnswersExactlyPrefixFree` | tools/utilities/ini.go:121-227 | the nested map answers all assigned paths as the flat list if and only if no path continues another |
| `Ini.SplitKeyDotted` | tools/utilities/ini.go:178-189 | a dotted key is the path of its halves |
| `Ini.SplitKeyOfParts` | tools/utilities/ini.go:178-189 | a name of visible parts between dots is split into just these |
| `Ini.SpaceIsIgnored` | tools/utilities/ini.go:129 | white space around a line does not matter |
| `Ini.EntryLine` | tools/utilities/ini.go:143 | a line key = value is an entry of its key and its raw value, cut at the first equals sign |
| `Ini.HeaderLine` | tools/utilities/ini.go:134-176 | a line [name] is a header of that name, with or without a comment behind it |
| `Ini.MalformedLine` | tools/utilities/ini.go:134-176 | a header without an end, or with anything but a comment behind it, and a line without an equals sign are malformed |
| `Ini.SkippedLine` | tools/utilities/ini.go:130-132 | comments and blank lines are skipped |
| `Ini.GoodDocuments` | tools/utilities/ini.go:128-161 | a document is accepted if and only if it has no malformed line and no line without a key name |
| `Ini.FirstBadLineIsNamed` | tools/utilities/ini.go:128-151 | otherwise the number of the first such line is reported |
| `Ini.OnlyPathsMatter` | tools/utilities/ini.go:113-161 | a document and the same one with each section written into its keys make the same assignments, or fail at the same line, if and only if no line without a key name is met under a section |
| `Ini.BareKeyDiffers` | tools/utilities/ini.go:148-151 | the one way they differ: a line without a key name is refused, while its dotted form assigns to the section itself |
| `IniStore.SameMap` | tools/utilities/ini.go:193-211 | a change in place leaves every map off the way down as it was |
| `IniStore.ChildMakesNoDifference` | tools/utilities/ini.go:195-202 | creating an intermediate map changes nothing the assignment would not overwrite |
| `IniStore.LeafAssigns` | tools/utilities/ini.go:204-210 | changing the last map of the way down is the assignment |
| `IniStore.IniSettings.SetValue` | tools/utilities/ini.go:193-211 | the walk over shared maps changed in place equals the assignment on values |
| `IniStore.SplitIniKey` | tools/utilities/ini.go:179-189 | the trimmed, non-empty parts in order |
| `IniStore.ParseEntry` | tools/utilities/ini.go:148-154 | a line is assigned at section and key joined, or refused without a key name |
| `IniStore.Parse` | tools/utilities/ini.go:121-161 | the settings built from all lines, or the number of the first wrong line |

## Left out

- KMS, Key Vault and GCP repositories, the cgo binding, gRPC and HTTP clients, middlewares, command lines, scaffolding and generated code: foreign calls and thin wrappers.
- Cryptographic strength: hashes, Argon2id, AES-GCM, PEM, JSON and Base64 are function parameters with round-trip laws only; wiping of derived keys and plaintext is not modelled beyond the update buffers.
- JobRegistry.LifecycleHolds: does not cover a registration racing with a start or a stop: a registration is one step here, while the source unlocks before it launches the loop (tools/jobs/jobs.go:171-176) and sets the started flag before it copies the definitions (tools/jobs/jobs.go:313-322).
- Several scheduler instances, and the timing of tickers, timers and timeouts: a job loop may test, run or expire at any time, and may prefer a tick to a closed channel as often as its select does.
- TokenLogin.AlwaysLoggedIn: does not cover interleaved calls: closing a session and resetting the flag are two steps (encrypt/pkcs11/backend.go:55-58), so it is proved one call at a time.
- JobRegistry.Jobs.SetFlag: tests and stores in one step; a stop between the two in the source leaves a flag nobody reads.
- Module reference counts, slot lookup and mechanism lists.
- A token that gives out the number of a session it still has open, or that reports an operation's failure without its return code.
- NextRun.NextRun: does not model time zones with transitions, nor years beyond what `time.Date` and the int conversion of a trigger's year can represent.
- AtomicWriter.Writer.WriteFiles: does not cover interference with the targets after the last check of the batch writer begins, symbolic links that make two target paths name one file, and temporary names that collide with targets.
- Panicking tasks, and tasks that stop their own dispatcher.
- Redaction of free text by regular expressions and of JSON inside strings: a string's sanitized form is a parameter. The log, detail and service records that call the sanitizer field by field are not modelled, nor is the difference between a nil and an empty map.
- Reflected values that cannot be read back as an interface (logger/sanitizer/sanitizer.go:224-226, 234-236, 244-246).
- Typing of INI values against loaded settings, list and quote syntax, the line length limit, and file lookup: a raw value's typed form is a parameter that is never a map.
- The lexical level of JSON: the scanner works on the tokens encoding/json delivers.
