# PromptLock, modelled and proved in Dafny

PromptLock is a broker that hands secrets to agents under short leases which a person approves. This
project models its stateful cores in Dafny, the lease broker, the auth lifecycle and the audit log, and
proves what they promise over whole runs, whatever the disk and the audit sink do; and it proves the
smaller algorithms around them against independent definitions.

`dafny verify dfyconfig.toml` checks everything.

## How it is laid out

**The lease broker.** `Domain` and `RequestPolicy` hold requests, leases, the request policy and the
equivalence key. `Durability` holds the clock, the audit sink and the durability gate, which every
component shares; a sink is one that appends or fails cleanly, or one that may also append and then fail.
`Broker` says, as one relation per kind of call, what a call does to five things: memory, the snapshot on
disk, the audit log, the gate and the clock, for every way in which a write may fail. `Service` is the
imperative service, a class that changes its maps step by step, commits, audits and rolls back; each of its
methods is proved to behave as the relation says. `BrokerRuns` carries an invariant through arbitrary runs, and
`BrokerTheorems` states the results: the audit log replays to the memory (behind a closed gate to at most one
change more), the snapshot is the memory while the gate is open, decisions are final, and the throttle holds.
`BrokerAnswers` says what each answer means in the plain fields of calls, requests, leases and log entries,
without the helpers that compute it, and `BrokerHistory` traces every released secret, and every access in the
log, to the request, the approval and the call behind it. `BrokerRestart` says which calls may leave a snapshot
or a log that disagrees, `BrokerReleases` how late a release may be.

**The auth lifecycle.** `AuthModel` gives each call as a function of the three token tables, the clock
readings it makes and the fate of its writes. `AuthStore` and `AuthLifecycle` are the classes that mutate
the tables, persist, audit and restore; they refine that function, and whatever they do over time is a run
of it. `AuthRuns` proves history properties of whole runs, `AuthHistory` exactly when each call is accepted, told
by the earlier calls alone, and `AuthCleanup` exactly when background cleanup can be noticed.

**The audit log.** `AuditChain` has the verifier and its meaning, `FileSink` the appender with writes that fail
at any character, `AuditLibrary` a concrete hash, quoting and reader which show that the assumptions on those
are consistent.

**Reading destinations from a command line.** `NetworkArgs` gives a recursive grammar of options,
`NetworkScan` the index-skipping loops that are proved equal to it, `NetworkEgress` the decision, and
`NetworkReading` the other side: what is written as words, options and values is read back as it was meant.

**The rate limiter** is in `RateLimiter`. **The workspace env file** is in `ShellQuote` (one line),
`SetupExports` (the list of lines), `SetupRefresh` (the file and what is read back from it) and
`SetupRefreshTheorems`.

`Prelude`, `Time` and `Text` hold datatypes, units and the string operations of Go's `strings` package.

## What the code does not quite do

These follow the code where a plainer promise would be false. Each has lemmas with the exact condition and
with the states in which the difference shows.

* A mutation whose commit or audit event fails, and whose rollback cannot be saved either, may leave a
  snapshot of a state that was never announced. The gate is closed, but a restart from the snapshot does not
  agree with a log that holds nothing of it. This can happen to every call that gets as far as
  changing the store, and to no other: `BrokerRestart.RestartAlwaysAgreesIff`,
  `BrokerRestart.RestartMayDiverge`. Neither the cooldown nor the look for a reusable lease keeps a request
  from getting there, since both may lift while the call lasts.
* The file sink may append an event and then fail. The mutation is undone and the gate closed, but the log
  keeps the event. So behind a closed gate the log may tell of one change that was not made, and of no more:
  `BrokerTheorems.ReplayRebuildsMemory`. That can happen to every call that gets as far as changing the store,
  and to no other: `BrokerRestart.LogAlwaysAgreesIff`, `BrokerRestart.LogMayTellMore`. A restart then agrees
  with the log exactly if the snapshot kept that same change: `BrokerRestart.RestartAgreesIff`.
* The env file that is read for an execution is compared with what the approved path leads to at that time,
  not with what was approved. Values come from the approved file exactly when that path still leads to itself:
  `BrokerReleases.ReadsApprovedFileIff`.
* A lease is held against the clock when its expiry is looked at. Every call that can release a secret at
  all, by plaintext access or for an execution, may complete the access after the lease has expired:
  `BrokerReleases.ReleasesInTimeIff`.
* The remaining cooldown that is computed is the least wait exactly when no equivalent pending request
  carries a creation time in the future, as in runs none does: `BrokerTheorems.WaitIsLeast`. The wait that
  the caller is told is at least a second, so it is never too short, and the least one exactly when a second
  or more remains: `BrokerTheorems.ToldWait`.
* A failed write of the audit log can make the log unverifiable for good: at once if it stopped inside a
  record; with the next append if the line could not be synced and the file was not opened again before; and
  with any later append at all, also after reopening, if only the line break is missing. A line of 64 KiB is
  not read back. `FileSink.LogVerifiesIff`, and with the greatest length of an event,
  `FileSink.LogVerifiesIffEventsFit`.
* Cleanup shows in the answer to a revocation that names a session which cleanup has removed, and only there
  as long as no such revocation also names a live grant: then the grant is revoked in one case and stays
  live in the other. `AuthCleanup.CleanupIsInvisibleToUse`, `AuthCleanup.RemovedSessionShows`,
  `AuthCleanup.SplitShowsInMint`. A pass with something to clean that cannot be recorded closes the gate, and
  shows unless all calls behind it that look at the gate would be rejected anyway:
  `AuthCleanup.FailedPassIsInvisibleIff`. The condition for all runs is `AuthCleanup.CleanupIsInvisibleIff`.
* Equivalence keys are joined with a separator that is not escaped. A request is the only one with its key, up
  to equivalence, exactly when each separator in its agent, intent and fingerprints, if there is any, has white
  space beside it: `RequestPolicy.KeyIdentifiesIff`. It takes only one of two requests to be of that kind for
  their keys to tell them apart: `RequestPolicy.KeyIdentifiesRequest`.
* A positional argument in which no host can be read is not part of the egress decision:
  `NetworkEgress.UnreadableOperandIsIgnored`, `NetworkEgress.UnreadableOperandIsNotDecided`.
* The env file is read back as it was meant, and a second refresh finds nothing to do, exactly when no path
  has a line break in it: `SetupRefreshTheorems.RefreshMeansIff`, `SetupRefreshTheorems.RefreshSettlesIff`.
* A list of managed exports none of which is desired, with nothing desired at all, becomes the empty list,
  which a second pass reads as one blank line: `SetupExports.SyncIsIdempotent`,
  `SetupExports.SyncedEmptyIff`.

## Assumptions

Fresh request, lease, grant, session and bootstrap identifiers; a clock that does not run back; handler
calls one at a time; nothing but the release of secrets logs accesses to them. The audit hash is injective,
never blank and without surrounding space, and JSON reading undoes canonical writing; no record is the
proper beginning of another, nor are several beginnings run together (`AuditLibrary.LawfulLibraryExists`
shows that all this can be met). Only `FileSink.LogVerifiesIffEventsFit` supposes that the hashes of a run
have 64 characters, and only of those. In the argv scanner, trimming, lower-casing and reading a host are
arbitrary functions, and so are the flag tables; only the empty candidate is known to have no host.

## Model

| member | source | states |
|---|---|---|
| `Domain.ValidSecretNameChars` | internal/core/domain/policy.go:79-108 | a secret name that validates is not blank once trimmed and is made of letters, digits and underscores, so it contains no separator of the equivalence key |
| `Domain.ValidSecretNameIff` | internal/core/domain/policy.go:45-108 | a secret can be requested exactly when its trimmed name is not blank, is of letters, digits and underscores with no digit in front, and spells no reserved name in any mix of case |
| `RequestPolicy.Throttle.Normalize` | internal/app/request_policy.go:38-47 | the normalised cooldown and cap are positive: a configured positive value is kept, any other becomes sixty seconds and two; whether leases are reused is kept |
| `RequestPolicy.Throttle.Effective` | internal/app/service.go:43-48 | the policy in force has the configured cooldown and cap where they are positive, sixty seconds and two where not, and reuses leases if so configured or if cooldown and cap are both zero |
| `RequestPolicy.NormalizeSecrets` | internal/app/request_policy.go:61-80 | the loop and sort give the strictly ascending list of exactly the trimmed non-blank names |
| `RequestPolicy.SortedUnique` | internal/app/request_policy.go:61-80 | a set of names has only one strictly ascending list |
| `RequestPolicy.NormalizedSecretsEqual` | internal/app/request_policy.go:61-80 | two secret lists normalise alike exactly when they name the same trimmed non-blank secrets |
| `RequestPolicy.KeyIdentifiesRequest` | internal/app/request_policy.go:49-80 | two requests, in one of which every unit separator within a text has white space beside it, have equal key material exactly when trimmed agent, intent and both fingerprints agree and their secret sets are equal |
| `RequestPolicy.ValidSecretsAreSeparatorFree` | internal/core/domain/policy.go:24-40 | secrets that pass request validation never contain a comma or the unit separator, so validation discharges that hypothesis |
| `RequestPolicy.KeyConfusesSeparated` | internal/app/request_policy.go:49-59 | every request with a unit separator without white space beside it, in agent, intent or a fingerprint, shares its key with a request that is not equivalent: the separator is taken for the one next to that text |
| `RequestPolicy.KeyIdentifiesIff` | internal/app/request_policy.go:49-80 | all requests that share the key of a request are equivalent to it exactly when none of its four texts holds a unit separator without white space beside it |
| `Durability.DurabilityGate.CloseDurabilityGate` | cmd/promptlockd/durability_gate.go:39-76 | the gate closes for good and keeps the reason of the first failure; at most one event of each durability kind may be logged, the closing only the first time, and none after an audit failure |
| `Durability.DurabilityGate.AuditCritical` | cmd/promptlockd/durability_gate.go:127-138 | a critical event is appended with the gate as it was, or the write failed and the gate is closed; then nothing was appended, or, by a sink that is not clean, that event |
| `Durability.AuditSink.Write` | internal/core/ports/ports.go:37-39 | a write that succeeds appends exactly its event; one that fails appends nothing, or, if the sink is not clean, that event |
| `Services.Service.constructor` | internal/adapters/memory/store.go:40-46 | the service starts with empty request and lease maps, in memory and on disk |
| `Services.Service.SaveStateToFile` | internal/adapters/memory/store.go:158-217 | a successful save makes the snapshot the memory; a failed one leaves the old snapshot or the new one |
| `Services.Service.CommitRequestLeaseState` | cmd/promptlockd/state_persist.go:9-36 | a commit without persistence does nothing; otherwise it makes the snapshot the memory or closes the gate |
| `Services.Service.RunCompensation` | internal/app/state_rollback.go:10-16 | deleting a request or lease that is not there is the only compensation that fails |
| `Services.Service.RollbackRequestLeaseMutation` | internal/app/state_rollback.go:18-34 | all compensations run in order even after one fails, then the result is committed again; no failure reported means compensated memory is also on disk |
| `Services.Service.CommitAndAudit` | internal/app/service.go:107-117 | after a mutation: committed and exactly one critical event logged, or memory exactly as before with the gate closed, the snapshot being the old, the intended or the restored state, and the event logged only if its write failed after appending |
| `Services.Service.CommitAndAuditDecision` | internal/app/service.go:165-191 | the same for a decision, whose event is followed at most by the env-path event of its kind, if the request has an env path |
| `Services.UndoCreate` | internal/app/service.go:107-116 | the compensation of a create restores the store as it was |
| `Services.UndoApprove` | internal/app/service.go:165-186 | the two compensations of an approval, in their order, restore the store as it was |
| `Services.UndoDecision` | internal/app/deny.go:33-51 | the compensation of a denial or cancellation restores the store as it was |
| `Services.Service.RequestLeaseUnlocked` | internal/app/service.go:78-118 | creates, commits and logs exactly the new pending request, or refuses with its reason and leaves memory as before |
| `Services.Service.StoreApproval` | internal/app/service.go:143-164 | status and lease are stored together, the lease carrying the particulars of the request and expiring the effective TTL after the clock reading |
| `Services.Service.ApproveRequestWithActorUnlocked` | internal/app/service.go:129-191 | grants one lease for a pending request with a valid TTL, a zero TTL meaning the requested one, or refuses with its reason and leaves memory as before |
| `Services.Service.DenyRequestWithActorUnlocked` | internal/app/deny.go:20-56 | closes a pending request and logs it as denied, or refuses and leaves memory as before |
| `Services.Service.CancelRequestByAgentUnlocked` | internal/app/cancel.go:15-49 | closes a pending request of the calling agent and logs it as cancelled, or refuses and leaves memory as before |
| `Services.Service.ListPendingRequests` | internal/adapters/memory/store.go:82-92 | each pending request is listed once and nothing else is |
| `Services.Service.ListLeases` | internal/adapters/memory/store.go:132-140 | exactly the stored leases are listed, each once |
| `Services.Service.GetLeaseByRequestID` | internal/adapters/memory/store.go:121-130 | the scan finds a lease of the request whenever there is one |
| `Services.Service.FindEquivalentActiveLease` | internal/app/request_lease_with_policy.go:86-115 | finds an unexpired lease with the same key whenever there is one |
| `Services.Service.CountPendingRequestsForAgent` | internal/app/request_lease_with_policy.go:117-126 | the count is the number of pending requests whose trimmed agent is the trimmed agent asked for |
| `Services.Service.EquivalentRequestCooldown` | internal/app/request_lease_with_policy.go:128-166 | throttles exactly when an equivalent pending request still blocks, and reports the longest remaining time |
| `Services.Service.MaxRetryAfter` | internal/app/request_lease_with_policy.go:133-160 | the loop computes the maximum remaining time over equivalent pending requests, attained by one of them |
| `Services.Service.RequestLeaseWithPolicy` | internal/app/request_lease_with_policy.go:28-80 | reuse, pending cap, cooldown and creation, in that order: what each outcome says held at a clock reading during the call, a creation was only tried after all three had been passed, also when it then failed, and a refusal for an unwritten reuse or throttle event means that a reusable lease existed, the cap was reached or the cooldown was running |
| `Services.Service.ReuseLease` | internal/app/request_lease_with_policy.go:49-54 | reuse logs exactly one event, of the agent and task of the call and the request and token of the lease, and does nothing else; a failed event turns it into a refusal |
| `Services.Service.AccessSecretForLease` | internal/app/service.go:325-351 | a value is returned only for an unexpired lease that allows it and matches both fingerprints, after start and completion are logged; each refusal names a reason that holds |
| `Services.Service.RejectPlaintextSecretAccess` | internal/app/service.go:193-206 | passes exactly when plaintext access is allowed, and otherwise logs exactly that it was blocked, or closes the gate |
| `Services.Service.AccessSecretByAgent` | internal/app/service.go:317-323 | the agent named must own the lease |
| `Services.Service.NormalizeExecutionSecretNames` | internal/app/execution_secrets.go:99-117 | trimmed non-blank names, one copy each, in order of first occurrence |
| `RequestPolicy.DistinctNames` | internal/app/execution_secrets.go:99-117 | that list has no repeats and names exactly the trimmed non-blank names |
| `RequestPolicy.DistinctInOrder` | internal/app/execution_secrets.go:99-117 | of two names in that list the first one is the one that occurs first |
| `Services.Service.CheckExecutionLease` | internal/app/execution_secrets.go:20-37 | passes only when the caller owns the lease, it is unexpired, both fingerprints match and every name is allowed |
| `Services.Service.ResolveExecutionSecretsByAgent` | internal/app/execution_secrets.go:15-60 | releases all requested secrets or none: the request must be approved and of the caller, every value has its start and completion logged, and refusals name a reason that holds |
| `Services.Service.ResolveStoreSecrets` | internal/app/execution_secrets.go:47-57 | each value comes from the secret store and is checked and logged on its own |
| `Services.Service.ResolveEnvPathExecutionSecrets` | internal/app/execution_secrets.go:62-97 | values come from an env file only if it resolves to what the approved canonical path leads to at that time; for each name the start is logged before the file is read and the completion after that and before the return |
| `Services.Service.Handle` | cmd/promptlockd/durability_gate.go:119-125 | every handler call is one step of the broker relation, and is refused outright once the gate is closed |
| `BrokerRuns.StepChanges` | internal/app/service.go:78-191 | every step creates one pending request, grants one lease, closes one pending request, or changes nothing, and the log says exactly which |
| `BrokerRuns.LedgerAfter` | internal/app/service.go:104-190 | replaying the event of a change updates statuses and tokens as the change did |
| `BrokerRuns.MatchedAfter` | internal/app/service.go:143-164 | each change keeps leases and approved requests in one-to-one correspondence |
| `BrokerRuns.SpacedAfter` | internal/app/request_lease_with_policy.go:68-79 | each change keeps equivalent pending requests the cooldown apart |
| `BrokerRuns.CappedAfter` | internal/app/request_lease_with_policy.go:57-66 | each change keeps every agent within the pending cap |
| `BrokerRuns.RunInv` | internal/app/service.go:36-191 | the whole invariant holds at every boundary of every run |
| `BrokerTheorems.ReplayRebuildsMemory` | internal/app/service.go:104-190 | at every boundary, replaying the critical events of the audit log gives exactly the request statuses and the lease tokens with their requests that memory holds; with a sink that may append and then fail, this is so while the gate is open, and behind a closed gate the log tells of at most one possible change more |
| `BrokerTheorems.SnapshotIsMemoryWhileOpen` | internal/app/state_rollback.go:18-34 | at every boundary with an open gate the snapshot is the memory |
| `BrokerTheorems.RefusalLeavesMemory` | internal/app/state_rollback.go:18-62 | a refused call leaves memory as it was, whichever step failed and whether or not the rollback failed too, and the replay of the log unless an audit write failed after appending; it closes the gate exactly for commit and audit failures |
| `BrokerTheorems.GateStaysClosed` | cmd/promptlockd/durability_gate.go:25-76 | a closed gate stays closed, every later call is refused and memory never changes again |
| `BrokerTheorems.LeaseOfRequestUnique` | internal/adapters/memory/store.go:121-130 | in every run a request has a lease exactly when it is approved, then only one, with the particulars of the request, so the unordered scan has one answer |
| `BrokerTheorems.DecisionsAreFinal` | internal/app/service.go:129-191 | approved and denied requests and all leases never change again |
| `BrokerAnswers.CoolingDownIff` | internal/app/request_lease_with_policy.go:128-166 | with a cooldown set, it holds exactly until that long after the creation of each pending request with the same key |
| `BrokerAnswers.CreatedMeans` | internal/app/request_lease_with_policy.go:28-84 | a created request has every field as asked for; its lifetime, the number and the names of its secrets are within the policy; its agent has room for it, pending requests for the same are at least the cooldown old, and leases for the same have expired where they would be reused; it is the only change and its event, in every field, the only one |
| `BrokerAnswers.ReusedMeans` | internal/app/request_lease_with_policy.go:44-55 | a reused lease is stored, unexpired at an instant of the call, has the key of the request, and nothing happens but the one event that says so |
| `BrokerAnswers.CapMeans` | internal/app/request_lease_with_policy.go:57-66 | a refusal for the cap: the agent has as many pending requests as it may, no lease could be reused, the wait is the cooldown or a second, and the event names this reason |
| `BrokerAnswers.CooldownMeans` | internal/app/request_lease_with_policy.go:68-73 | a refusal for the cooldown: the latest equivalent pending request is younger than the cooldown, and the wait ends exactly when it no longer is, or after a second |
| `BrokerAnswers.CooldownComesLast` | internal/app/request_lease_with_policy.go:40-73 | that refusal is given only to a valid request of an agent with room for it, with no lease to reuse, and the event names this reason |
| `BrokerAnswers.SubmitRefusedMeans` | internal/app/request_lease_with_policy.go:28-84 | a closed gate refuses exactly then, an invalid request exactly then; those and a missing env file leave everything as it was; no other reasons are given |
| `BrokerAnswers.GrantedMeans` | internal/app/service.go:129-191 | a granted lease has every field of its pending request and lasts the minutes of the approver, or if those are zero of the request, within the policy, from an instant of the call; request and lease are the only change, and the event in every field comes first, followed at most by a confirmation of the env path |
| `BrokerAnswers.ApproveRefusedMeans` | internal/app/service.go:129-186 | an approval is refused as not found, not pending or invalid exactly then, with everything as it was; otherwise only for want of a commit or an audit record, with memory as it was and the gate closed |
| `BrokerAnswers.ClosedMeans` | internal/app/deny.go:20-56 | a denied or cancelled request was pending, and the caller's if one is named; its status is the only change, and the event in every field says which of the two it was |
| `BrokerAnswers.CloseRefusedMeans` | internal/app/cancel.go:15-49 | a denial or cancellation is refused as not found or not owned exactly then, and as not pending only then |
| `BrokerAnswers.AccessMeans` | internal/app/service.go:325-351 | a plaintext access is allowed, covered by the lease in caller, command, directory, secret and time, and gives what the secret store holds; its start and completion are logged in every field, in order, after the expiry check, and once |
| `BrokerAnswers.ResolveMeans` | internal/app/execution_secrets.go:15-97 | secrets for an execution are exactly those asked for, each covered and logged like that, under the approved request of the lease, and once; nothing but log and clock changes |
| `BrokerAnswers.ResolvedFrom` | internal/app/execution_secrets.go:47-97 | those values come from the secret store, or if the request has an env path, from the env file that the approved path leads to, and no event of the call says anything of that path but that it is confirmed |
| `BrokerAnswers.BlockedMeans` | internal/app/service.go:193-206 | an attempt at plaintext access that is not allowed is logged as such and refused as disabled, unless the logging fails and closes the gate |
| `BrokerAnswers.AccessRefusedMeans` | internal/app/service.go:317-351 | a refused access gives a reason that holds, in the fields of call and lease; a closed gate, an unknown lease and a failed audit write are named exactly then, and a secret that the store does not give is logged as started and at most as failed |
| `BrokerAnswers.ResolveRefusedMeans` | internal/app/execution_secrets.go:15-97 | a refused execution gives a reason that holds, in the fields of call, lease and request; a closed gate, no names and a failed audit write are named exactly then |
| `BrokerHistory.RequestWasSubmitted` | internal/app/service.go:78-118 | in every run each stored request was created by one earlier call and has only changed its status since |
| `BrokerHistory.LeaseWasGranted` | internal/app/service.go:129-191 | in every run each stored lease was granted by one earlier call and is as it was then |
| `BrokerHistory.LeaseStory` | internal/app/service.go:129-191 | in every run a lease gives what an earlier request asked for and lasts the minutes of its approval, or if those are zero of the request, from an instant of the approving call, whose event is still in the log |
| `BrokerHistory.ReleaseIsAuthorised` | internal/app/service.go:325-351 | in every run, behind each released secret there are an earlier request that asked for it and its approval, and the releasing call is of the agent of the request if it names one, from its command and directory, for that secret, and looked at the lease within the minutes of the approval; approval, start and completion are in the log in every field, start and completion in order, after that look, and once |
| `BrokerHistory.LoggedAccessIsEarned` | internal/app/audit_events.go:141-151 | in every run, behind each access in the log, started or completed, released or not, there are such a request, approval and call, and the event names its agent, task, request, lease and secret |
| `BrokerReleases.ReleaseMayOutliveLease` | internal/app/service.go:325-351 | from every state in which a secret can be had, by plaintext access or for an execution, the access may be completed after the lease has expired |
| `BrokerReleases.ReleasesInTimeIff` | internal/app/execution_secrets.go:15-97 | all releases that a call can produce are complete before the lease expires exactly when the guards of the call rule out any release |
| `BrokerReleases.ReadsApprovedFileIff` | internal/app/execution_secrets.go:62-97 | all values that a call can release from an env file come from the file that was approved exactly when the approved path still leads to itself |
| `BrokerTheorems.CapHolds` | internal/app/request_lease_with_policy.go:57-66 | in every run no trimmed agent has more pending requests than the cap |
| `BrokerTheorems.SpacingHolds` | internal/app/request_lease_with_policy.go:68-79 | in every run requests for the same that are pending together were created at least the cooldown apart |
| `BrokerTheorems.WaitIsLeast` | internal/app/request_lease_with_policy.go:128-166 | the cooldown holds at every instant before the computed remaining time is over, and is lifted right then exactly when no equivalent pending request was created in the future |
| `BrokerTheorems.WaitIsLeastInRuns` | internal/app/request_lease_with_policy.go:128-166 | in runs the computed remaining time is always the least wait |
| `BrokerTheorems.ToldWait` | internal/app/request_throttle.go:21-29 | the wait told to the caller is never too short when nothing lies in the future, and then the least one exactly when the remaining time is at least a second |
| `BrokerTheorems.ToldWaitInRuns` | internal/app/request_lease_with_policy.go:68-73 | in every run a caller throttled for the cooldown is told to wait until the latest pending request for the same is as old as the cooldown, or a second; if nothing changes the cooldown is then over for good, and no sooner if it was more than a second |
| `BrokerTheorems.ReuseIsEquivalent` | internal/app/request_lease_with_policy.go:44-55 | a reused lease is stored, unexpired and equivalent in agent, intent, secrets and both fingerprints, and memory is unchanged; only the caller's own four texts must have white space beside each separator they hold |
| `BrokerRestart.RestartAgreesIff` | internal/app/state_rollback.go:18-34 | after any call the snapshot replays like the log exactly when both agree with memory or neither does, with a clean sink exactly when the snapshot is the memory; and it is whenever no failed rollback was reported |
| `BrokerRestart.RestartAlwaysAgreesIff` | internal/app/state_rollback.go:18-34 | whatever fails during a call, the snapshot replays like the log afterwards, exactly when the guards of the call, read off the state before it, keep it from changing the store |
| `BrokerRestart.LogAlwaysAgreesIff` | internal/app/state_rollback.go:18-34 | whatever fails during a call, the log replays to the memory afterwards, exactly when the sink never fails after appending or the guards of the call keep it from changing the store |
| `BrokerRestart.LogMayTellMore` | internal/app/service.go:104-117 | with a sink that may append and then fail, every create, approve, deny or cancel that passes its guards may leave a log that replays to something else than the memory |
| `BrokerRestart.RestartMayDiverge` | internal/app/state_rollback.go:18-62 | every create, approve, deny or cancel that passes its guards may fail, at the commit or at the audit event, and leave a snapshot that the log does not account for, with the gate closed |
| `AuthStore.Store.Snapshot` | internal/auth/persist.go:44-62 | a snapshot is the three tables |
| `AuthStore.Store.Restore` | internal/auth/persist.go:64-76 | restoring makes the tables exactly the snapshot |
| `AuthStore.Store.ConsumeBootstrap` | internal/auth/store.go:59-78 | consumes a usable token of the right container once, or names the first problem and changes nothing |
| `AuthStore.Store.RevokeGrant` | internal/auth/store.go:98-108 | marks an existing grant revoked and touches nothing else |
| `AuthStore.Store.RevokeSession` | internal/auth/store.go:126-136 | marks an existing session revoked and touches nothing else |
| `AuthStore.Store.ValidateSession` | internal/auth/store.go:138-150 | accepts exactly the sessions that exist, are not revoked and have not expired |
| `AuthStore.Store.CleanupExpired` | internal/auth/store.go:152-179 | removes exactly the unusable bootstrap tokens and sessions, revokes exactly the expired grants, counts each, and reports all zeros exactly when nothing changed |
| `AuthLifecycle.Lifecycle.Persist` | internal/app/auth_lifecycle.go:55-60 | persisting makes the file the tables or closes the gate and leaves the old or the new file |
| `AuthLifecycle.Lifecycle.Record` | internal/app/auth_lifecycle.go:85-92 | both persisted and audited, with exactly the given event, or the tables are the snapshot again and the gate is closed |
| `AuthLifecycle.Lifecycle.CreateBootstrap` | internal/app/auth_lifecycle.go:70-94 | stores a new unused token with its lifetime, all or nothing; success logs exactly one event, naming the agent |
| `AuthLifecycle.Lifecycle.CompletePairing` | internal/app/auth_lifecycle.go:96-127 | uses up the bootstrap token and stores a grant with its agent and container, all or nothing; success logs exactly one event, naming the agent |
| `AuthLifecycle.Lifecycle.MintSession` | internal/app/auth_lifecycle.go:129-160 | renews an active grant and stores a session of it, all or nothing; success logs exactly one event, naming the agent |
| `AuthLifecycle.Lifecycle.Revoke` | internal/app/auth_lifecycle.go:162-189 | revokes a grant, a session or both, all or nothing, also when only the second is missing; success logs exactly one event |
| `AuthLifecycle.Lifecycle.Authenticate` | cmd/promptlockd/authz.go:41-86 | accepts exactly a live session whose grant is active, for the agent of the session |
| `AuthLifecycle.Lifecycle.RunAuthCleanupPass` | cmd/promptlockd/auth_cleanup.go:24-58 | cleans, persists and audits, or restores; a pass that changes nothing writes nothing |
| `AuthLifecycle.Lifecycle.Handle` | internal/app/auth_lifecycle.go:70-189 | every call is one step of the auth relation, mutations being refused once the gate is closed |
| `AuthRuns.StepServes` | internal/app/auth_lifecycle.go:70-189 | a call of the class, with the rest of the daemon at work before it, gives the tables, the gate and the answer of the functional model |
| `AuthRuns.DaemonRunsAreRuns` | internal/app/auth_lifecycle.go:70-189 | whatever the class does over time, interleaved with the rest of the daemon, is one of the runs that the results speak about |
| `AuthRuns.RejectionChangesNothing` | internal/app/auth_lifecycle.go:70-189 | a rejected call of any kind, for any reason, leaves all three tables as they were |
| `AuthRuns.SnapshotIsTablesWhileOpen` | internal/app/auth_lifecycle.go:85-92 | while the gate is open the persisted auth state is the tables, cleanup passes included |
| `AuthRuns.GrantHasStory` | internal/app/auth_lifecycle.go:96-160 | every grant goes back to one successful pairing and a last use that account for its agent, container and expiries |
| `AuthRuns.SessionHasStory` | internal/app/auth_lifecycle.go:129-160 | every session was minted by an earlier call and names a grant that still exists, with the same agent |
| `AuthRuns.BootstrapHasStory` | internal/app/auth_lifecycle.go:70-94 | every stored bootstrap token was made by an earlier call, unchanged but for its use |
| `AuthRuns.GrantCarriesItsToken` | internal/app/auth_lifecycle.go:96-127 | every grant carries the agent and the container of the bootstrap token it was paired with |
| `AuthRuns.TokenStaysUsed` | internal/auth/store.go:59-78 | after a successful pairing its token is used or gone for the rest of the run |
| `AuthRuns.OnePairingPerToken` | internal/auth/store.go:59-78 | a bootstrap token yields at most one successful pairing in a run, rollbacks and cleanups included |
| `AuthRuns.InactiveForever` | internal/app/auth_lifecycle.go:129-160 | a grant that is revoked, idle-expired or past its limit at one instant is inactive at every later instant and point of the run |
| `AuthRuns.RevokedIsInactive` | internal/auth/store.go:98-108 | a grant that was revoked successfully is inactive ever after |
| `AuthRuns.AcceptedSessionIsInTime` | cmd/promptlockd/authz.go:41-86 | a session is accepted only before its own expiry, before pairing plus the absolute maximum, before the last pairing or mint of its grant plus the idle timeout, for the paired agent, and if its grant was never revoked |
| `AuthHistory.OpenIff` | cmd/promptlockd/durability_gate.go:25-76 | the gate is open for a call exactly when it was at the start, nothing closed it from elsewhere, and everything before was recorded |
| `AuthHistory.AuthenticatedIff` | cmd/promptlockd/authz.go:41-86 | a call is authenticated exactly when an earlier turn minted its session less than the session lifetime ago, the grant was paired less than the absolute maximum and last paired or minted from less than the idle timeout ago, and no revocation named either; other sessions, failures and cleanup passes do not matter |
| `AuthHistory.AuthenticatedAgent` | cmd/promptlockd/authz.go:41-86 | who is authenticated is the agent that was paired for the grant of the session |
| `AuthHistory.BootstrappedIff` | internal/app/auth_lifecycle.go:70-94 | a bootstrap token is made exactly when the gate is open, agent and container are named and it is recorded, with every field as asked for |
| `AuthHistory.PairedIff` | internal/app/auth_lifecycle.go:96-127 | a pairing is completed exactly when the gate is open, the token was made for this container less than its lifetime ago and has not been spent, and it is recorded; the grant is of the agent of the token, with both expiries |
| `AuthHistory.MintedIff` | internal/app/auth_lifecycle.go:129-160 | a session is minted exactly when the gate is open, the grant was paired, is within both lifetimes and was never revoked, and it is recorded; the session is of the paired agent |
| `AuthHistory.RevokedIff` | internal/app/auth_lifecycle.go:162-189 | a revocation is done exactly when the gate is open, it names something, a named grant was paired and a named session was minted and not removed by a cleanup, and it is recorded |
| `AuthHistory.SessionIsLiveIff` | internal/auth/store.go:138-150 | a minted session is live exactly when it is within its lifetime and no revocation named it |
| `AuthHistory.GrantIsActiveIff` | internal/app/auth_lifecycle.go:129-160 | a grant is active exactly when it was paired, is within the absolute maximum of that and the idle timeout of its last use, and no revocation named it |
| `AuthHistory.SpendableIff` | internal/auth/store.go:59-78 | a bootstrap token can be spent exactly when it was made for the container less than its lifetime ago and no pairing has spent it |
| `AuthHistory.RejectionMeans` | internal/auth/store.go:59-150 | each rejection gives a reason that holds in the tables it found; a closed gate is named exactly then |
| `AuthCleanup.CleanedMeans` | internal/auth/store.go:152-179 | a cleanup keeps exactly the usable bootstrap tokens and live sessions as they are, and all grants, the expired ones revoked |
| `AuthCleanup.CleanedIsAlike` | internal/auth/store.go:152-179 | tables before and after cleanup differ only in what is dead |
| `AuthCleanup.AttemptAlike` | internal/app/auth_lifecycle.go:70-189 | alike tables give every ordinary call the same verdict and stay alike |
| `AuthCleanup.CleanupIsInvisible` | internal/auth/store.go:152-179 | dropping all cleanup passes, if they are recorded, from a run whose revocations name only grants changes no accept or reject outcome of the other calls |
| `AuthCleanup.CleanupIsInvisibleIff` | internal/auth/store.go:126-179 | for every run in order of time, whatever is recorded or not: dropping the passes changes no outcome of any other call exactly when no recorded revocation names a session that only one of the two runs still holds, with a grant, if it names one, that exists, and no gated call passes its guards and is recorded in one run while the gate is closed in the other |
| `AuthCleanup.FailedPassIsInvisibleIff` | cmd/promptlockd/auth_cleanup.go:24-58 | after a pass that had something to clean and could not be recorded, the outcomes of all further calls are those without the pass exactly when every gated one of them is rejected without it |
| `AuthCleanup.CleanupIsInvisibleToUse` | internal/auth/store.go:152-179 | if passes and revocations of sessions are recorded, and as long as no such revocation also names a live grant, the outcomes of pairing, minting, authentication and every call but revocations of sessions are unchanged |
| `AuthCleanup.RevocationVerdictIff` | internal/app/auth_lifecycle.go:162-189 | alike tables accept or reject a revocation alike exactly when it does not name a session that only one of them holds, with a grant, if it names one, that exists |
| `AuthCleanup.RemovedSessionShows` | internal/auth/store.go:126-136 | from every open machine with a dead session in the table, a cleanup pass turns the revocation of that session from accepted to rejected |
| `AuthCleanup.RevocationKeepsAlikeIff` | internal/app/auth_lifecycle.go:162-189 | for every revocation, alike tables stay alike exactly when it does not name a live grant together with a session that only one of the two still holds |
| `AuthCleanup.SplitShowsInMint` | internal/app/auth_lifecycle.go:162-189 | after such a revocation one state mints a session and the other refuses |
| `AuditChain.VerifyFile` | internal/adapters/audit/verify.go:33-77 | the scan accepts exactly the logs whose lines fit the scanner in bytes and which are well formed and chained and, given a checkpoint, contain it; it returns the last hash and the number of records |
| `AuditChain.VerifyFileAnchored` | internal/adapters/audit/verify.go:29-31 | the same with the checkpoint trimmed; a blank one asks for nothing |
| `AuditChain.BlankLineIsIgnored` | internal/adapters/audit/verify.go:33-77 | a blank line that fits the scanner changes neither acceptance nor the records, wherever it stands |
| `AuditChain.ParseFormat` | internal/adapters/audit/verify.go:125-188 | parsing a canonically written record gives it back |
| `AuditChain.RecordHashInjective` | internal/adapters/audit/verify.go:57-62 | a record hash determines the event and the previous hash |
| `AuditChain.AcceptedPrefix` | internal/adapters/audit/verify.go:33-77 | every prefix of an accepted log is accepted and holds a prefix of the records |
| `AuditChain.HashesDistinct` | internal/adapters/audit/verify.go:33-77 | no hash occurs twice in a chain and none is blank |
| `AuditChain.LastHashDeterminesLog` | internal/adapters/audit/verify.go:33-77 | two accepted logs with the same last hash hold the same sequence of records |
| `AuditChain.CheckpointFixesPrefix` | internal/adapters/audit/verify.go:29-77 | a log accepted against the last hash of a non-empty accepted log starts with all its records |
| `FileSink.Sink.constructor` | internal/adapters/audit/file.go:37-79 | opening succeeds exactly on a log that verifies, and carries on its last hash |
| `FileSink.Sink.Reopen` | internal/adapters/audit/file.go:37-136 | closing and opening again keeps the file and takes up its last hash if it verifies |
| `FileSink.Sink.Write` | internal/adapters/audit/file.go:81-111 | a successful write appends one linked record and moves the carried hash; a failed one leaves the hash and leaves nothing, the first part of the line, the line without its break, or the whole line in the file |
| `FileSink.LogVerifiesIff` | internal/adapters/audit/file.go:81-111 | after any sequence of writes, failures at any character and reopenings the log is accepted exactly when the line of each appended event fits the scanner, no write stopped inside a record, nothing was appended behind an unsynced line before a reopening, and nothing ever behind a line without its break |
| `FileSink.LogVerifiesIffEventsFit` | internal/adapters/audit/file.go:81-111 | with hashes of 64 characters, the condition is on the steps alone: an appended event has at most 65372 bytes, the very first one 65436, and nothing is appended or cut short where it must not be |
| `FileSink.SuccessfulWritesVerify` | internal/adapters/audit/file.go:81-111 | successful writes of events that fit and reopenings in any order keep the log accepted, with the right number of records and the carried hash as its last hash |
| `AuditLibrary.LawfulLibraryExists` | internal/adapters/audit/verify.go:125-188 | the assumptions on hash, quoting and reading are met by a concrete library |
| `NetworkArgs.ItemsCoverArgs` | internal/app/control_plane_network.go:77-143 | the option grammar skips nothing: its items written out again are the argv |
| `NetworkArgs.HostsAreFirstOccurrences` | internal/app/control_plane_network.go:58-70 | the host list holds exactly the hosts of the candidates, none twice, in order of first occurrence |
| `NetworkScan.SplitLongFlagToken` | internal/app/control_plane_network.go:146-151 | name and inline value rejoin to the token, and the name has no equals sign |
| `NetworkScan.ConsumeLongFlagToken` | internal/app/control_plane_network.go:92-129 | destination, consumed token and unsafe flag are those of the grammar for a long flag |
| `NetworkScan.ConsumeShortFlagToken` | internal/app/control_plane_network.go:153-202 | the loop over a cluster gives the destination, consumed token and unsafe flag of the grammar |
| `NetworkScan.ExtractDirectClientDomains` | internal/app/control_plane_network.go:57-144 | the index-skipping scan returns exactly the hosts of the grammar's destinations and its first unsafe flag |
| `NetworkEgress.ExtractGenericDomains` | internal/app/control_plane_network.go:19-55 | for other commands the scan returns exactly the hosts of its candidates, --url taking the next token |
| `NetworkEgress.ExtractDomains` | internal/app/control_plane_network.go:9-17 | a direct client is read with its table, any other command generically |
| `NetworkEgress.DomainAllowed` | internal/app/control_plane_network.go:284-299 | allowed exactly when not a blocked address and equal to or below a non-blank entry |
| `NetworkEgress.ValidateNetworkEgress` | internal/app/control_plane_policy.go:92-130 | accepts exactly the commands that the policy allows, and each refusal gives a reason that holds |
| `NetworkEgress.ClientAcceptedIff` | internal/app/control_plane_policy.go:92-130 | while enabled, a direct client is accepted exactly when no denied text occurs, an allow list applies, and in the reading of its whole argv some host is named, no flag is unknown or opaque, and every named host is allowed |
| `NetworkEgress.UnreadableOperandIsIgnored` | internal/app/control_plane_network.go:61-70 | a reading is confined or not regardless of operands in which no host can be read, wherever they stand |
| `NetworkEgress.UnreadableOperandIsNotDecided` | internal/app/control_plane_network.go:208-227 | adding such an operand in front changes no decision on a direct client, unless its text is denied |
| `NetworkEgress.AllowedIff` | internal/app/control_plane_network.go:284-299 | a domain is allowed exactly when it is no blocked address and the dot-separated labels of some non-blank entry are its last labels |
| `NetworkEgress.DeniesIff` | internal/app/control_plane_policy.go:92-105 | a command is denied for a text exactly when the text is not empty and stands in its words, in any case |
| `NetworkEgress.AllowListMeans` | internal/app/control_plane_policy.go:106-122 | an intent with a list of its own is held to that, any other to the general list, and a missing one to none if an intent is required |
| `NetworkReading.ReadingUndoesWriting` | internal/app/control_plane_network.go:57-202 | words, long and short options, switches and values, written out in any order and with values in their own token or the next, are read back as the destinations they were meant as, in order, with the first unsafe option |
| `NetworkReading.EveryLineIsWritten` | internal/app/control_plane_network.go:57-202 | every argv of trimmed, non-blank tokens is written like that, so that law says what is read of all of them |
| `NetworkReading.CandidatesIff` | internal/app/control_plane_network.go:19-55 | the candidates of another command are exactly what its tokens make by their place: the value of --url in either form, or the token itself |
| `NetworkReading.CommandAcceptedIff` | internal/app/control_plane_policy.go:92-130 | while enabled, a command that is no direct client is accepted exactly when no denied text occurs and, if a candidate has a host, an allow list applies that holds all such hosts |
| `RateLimiter.AuthRateLimiter.constructor` | cmd/promptlockd/auth_ratelimit.go:27-37 | positive settings are kept, any other window becomes sixty seconds and any other maximum twenty |
| `RateLimiter.AuthRateLimiter.Allow` | cmd/promptlockd/auth_ratelimit.go:50-66 | refuses exactly when the current bucket is full, after replacing an ended one; no other key changes |
| `RateLimiter.AuthRateLimiter.RecordFailure` | cmd/promptlockd/auth_ratelimit.go:68-81 | adds one failure to the current bucket of the key and reports whether it is now full; no other key changes |
| `RateLimiter.TrippedIffRefused` | cmd/promptlockd/auth_ratelimit.go:50-81 | a failure trips the limiter exactly when the next attempt is refused |
| `RateLimiter.CountIsExact` | cmd/promptlockd/auth_ratelimit.go:50-81 | for sequential gated attempts a bucket counts exactly the failures in its window and never exceeds the maximum |
| `RateLimiter.RefusalIsEarned` | cmd/promptlockd/auth_ratelimit.go:50-66 | a refusal implies at least the maximum number of failures within the last window |
| `RateLimiter.FailuresAreBounded` | cmd/promptlockd/auth_ratelimit.go:50-81 | between two instants a key fails at most the maximum for each window needed to cover the stretch and once more, which is never above the floor plus two |
| `ShellQuote.ParseUndoesQuote` | cmd/promptlock/workspace_setup_autodetect.go:112-148 | for every trimmed name without an equals sign and every value, reading the quoted export line gives back name and value |
| `ShellQuote.UnquoteQuoted` | cmd/promptlock/setup.go:639-641 | replacing escaped quotes undoes escaping them, however quotes and backslashes are mixed |
| `ShellQuote.NameOfExportLine` | cmd/promptlock/setup.go:608-619 | the name of an export line is the name it was written with, trimmed line or not |
| `ShellQuote.NameIff` | cmd/promptlock/setup.go:608-619 | the name of any line is what stands, trimmed, between export and the first equals sign, and no other line has one |
| `ShellQuote.ParseUnquoted` | cmd/promptlock/workspace_setup_autodetect.go:142-147 | a trimmed value without quotes at both ends is read as it is, unless it holds a dollar sign or a backquote, and then not at all |
| `ShellQuote.ParseDoubleQuoted` | cmd/promptlock/workspace_setup_autodetect.go:136-141 | a double-quoted value is read literally unless it contains a shell reference, and then not at all |
| `SetupExports.SyncSetupExportLines` | cmd/promptlock/setup.go:549-606 | the two loops compute the synced list and report a change exactly when one is needed |
| `SetupExports.SyncedLines` | cmd/promptlock/setup.go:549-606 | every line of the result is an unmanaged line of the input or exactly the wanted text of a desired name, and every desired name is present |
| `SetupExports.UnmanagedLinesSurvive` | cmd/promptlock/setup.go:549-606 | unmanaged lines survive in order with every copy |
| `SetupExports.CopiesAreKept` | cmd/promptlock/setup.go:549-606 | a desired variable is set by as many lines as before, or by one if by none |
| `SetupExports.ChangeIsReported` | cmd/promptlock/setup.go:549-606 | a change is reported exactly when the list differs |
| `SetupExports.SyncIsIdempotent` | cmd/promptlock/setup.go:549-606 | a second pass reports no change and gives the same list, except exactly for a list of managed exports with none desired at all |
| `SetupExports.SyncedEmptyIff` | cmd/promptlock/setup.go:549-606 | the result is empty exactly when every line is a managed export and nothing is desired |
| `SetupRefresh.LoadWorkspaceSetupEnvExports` | cmd/promptlock/workspace_setup_autodetect.go:89-110 | later lines win, unreadable lines are skipped, and an unreadable file or no export at all gives nothing |
| `SetupRefresh.SyncedMeaning` | cmd/promptlock/setup.go:549-606 | what is loaded from a synced list is what was loaded before without the managed names, plus what the desired lines say |
| `SetupRefresh.WorkspaceEnv.RefreshWorkspaceSetupEnvPaths` | cmd/promptlock/setup.go:508-523 | on success the file holds the synced lines, and a change is reported exactly when they needed one; a file that cannot be read is left alone, and a write is tried only when needed |
| `SetupRefreshTheorems.DesiredIsProper` | cmd/promptlock/setup.go:530-547 | the desired exports have distinct managed names, with and without the bridge |
| `SetupRefreshTheorems.SettingCount` | cmd/promptlock/setup.go:530-547 | four lines are desired, with a bridge six, and with a port of it other than zero seven |
| `SetupRefreshTheorems.ReferenceLines` | cmd/promptlock/setup.go:530-547 | the two lines left to the shell are, to the letter, the alias with its default and the address of the bridge there |
| `SetupRefreshTheorems.DesiredMeaning` | cmd/promptlock/setup.go:530-547 | the desired lines, read back, are exactly the paths of the layout; the shell references are skipped |
| `SetupRefreshTheorems.RefreshMeansIff` | cmd/promptlock/setup.go:508-547 | after a refresh of any file, loading gives the paths of the layout, every unmanaged variable as before and nothing else, exactly when no path has a line break |
| `SetupRefreshTheorems.RefreshSettlesIff` | cmd/promptlock/setup.go:508-547 | a second refresh finds nothing to do exactly when no path has a line break |
| `Text.SplitJoin` | cmd/promptlock/setup.go:513-519 | splitting the joined lines gives the lines back when none holds a line break |

## Left out

- HTTP handlers, routing, listeners, JSON decoding and the mapping of errors to status codes; only the gate check in front of a handler is kept.
- Interleaving of readers that take no mutation lock with a mutation in progress: every handler call is one step.
- Actor names, event metadata, summaries, redaction and sanitising of audit text: events keep the fields that the results speak about, and the audit log stores an event as its sanitised JSON.
- SHA-256, AES-GCM, random tokens and JSON itself: the hash is any injective, never blank function and the reader any inverse of the canonical writer. The equivalence key stands for its own digested text.
- File writing, rename, sync and locking: a snapshot write succeeds, leaves the old snapshot, or leaves the new one after a late failure.
- Loading a snapshot at start-up: stores start empty, and a restart is only compared with the log.
- The external state store and the external, env and file secret backends: a secret store is a map, and what it answers during a call is an input of the call.
- Canonical paths, symbolic links and reading of env files: the canonical path of a request, what the approved path leads to later, and the file's content are inputs of a call.
- A missing audit sink: the service always has one. The sink of the broker keeps whole events; parts of lines are modelled with the file.
- Go's 64-bit durations and the zero instant: time is unbounded, and a bucket of the rate limiter is either absent or has a real end.
- Order of map iteration: loops over maps take keys in any order, and results do not depend on it.
- Reading a host out of an argument, parsing of addresses, lower-casing and trimming in the argv scanner: arbitrary functions. The flag tables of the three direct clients are inputs; results hold for every table.
- The other validators of the control plane, Docker arguments, output redaction and executable resolution.
- Concurrent callers of the rate limiter: attempts follow one another, as its bounds need.
- Deriving the limiter's key from a request, and merging loaded exports into an environment.
- The remote address, the port and the host reading of the bridge address: the port is an input made of characters of the address.
- The watch terminal interface, help text, daemon process control, the stdio adapter and the release tools.
- `CommitAndAudit`, `AuditCommitted`, `CommitAndAuditDecision`, `StoreRequest`, `StoreApproval`, `GrantLease`, `RequestUnlessCoolingDown`, `RetryAfter`, `GetSecretAudited`, `ReleaseEnvFile`, `CheckExecutionLease`, `Record`, `Conclude`, `RecordToken`, `AddGenericToken`: code that the source repeats or writes inline in its callers, here written once.
- BrokerHistory.ReleaseIsAuthorised: bounds the instant of the expiry check; for the hand-over no bound holds, which is what BrokerReleases.ReleasesInTimeIff says.
- Bytes of the audit file: a line is cut short between characters, not inside one, and what the system itself lost of an unsynced line is not modelled.
