/**
 What one call of the lease broker does to memory, disk, audit log and gate, for every way the
 disk and the audit sink may fail (`internal/app/service.go` and the files around it). The
 methods of `Service` are proved to behave like this; `BrokerRuns` reasons about whole runs.
 */
module Broker {
  import opened Prelude
  import opened Text
  import opened Time
  import opened Domain
  import opened RequestPolicy
  import opened Durability

  /** The two maps of the in-memory store, and of a snapshot of it on disk. */
  datatype World = World(requests: map<string, LeaseRequest>, leases: map<string, Lease>)

  ghost predicate WellKeyed(w: World) {
    && (forall id | id in w.requests :: w.requests[id].id == id)
    && (forall tok | tok in w.leases :: w.leases[tok].token == tok)
  }

  /** `cleanAudit` says that an audit write that fails has appended nothing. */
  datatype Config = Config(policy: Policy, throttle: Throttle, persists: bool, allowPlaintext: bool, cleanAudit: bool)

  datatype View = View(
    mem: World,
    disk: World,
    secrets: map<string, string>,
    gateOpen: bool,
    log: seq<AuditEvent>,
    clock: int)

  /**
   Calls, with the identifiers drawn and the answers of file system and secret store during the call.
   `backend` is what the secret store answers. For `Resolve`, `approvedNow` is the canonical form that
   the approved path has at that time, links followed, and `envFile` what was read from the path of the
   request, with the canonical form of that.
   */
  datatype Call =
    | Submit(agentID: string, taskID: string, reason: string, ttl: int, secrets: seq<string>, intent: string,
             commandFingerprint: string, workdirFingerprint: string, envPath: string,
             canonical: Option<string>, newID: string)
    | Approve(requestID: string, ttlMinutes: int, newToken: string)
    | Deny(requestID: string)
    | Cancel(requestID: string, byAgent: string)
    | Access(caller: string, leaseToken: string, secret: string, cmdFingerprint: string, wdFingerprint: string,
             backend: map<string, string>)
    | Resolve(caller: string, leaseToken: string, names: seq<string>, cmdFingerprint: string, wdFingerprint: string,
              backend: map<string, string>, approvedNow: string, envFile: Option<(map<string, string>, string)>)

  datatype ThrottleReason = PendingCap | Cooldown

  datatype Refusal =
    | DurabilityClosed
    | InvalidRequest
    | EnvPathUnavailable
    | Throttled(why: ThrottleReason, retryAfter: int)
    | AuditWriteFailed
    | CommitFailed(rollbackFailed: bool)
    | AuditUnavailable(rollbackFailed: bool)
    | NotFound
    | NotPending
    | NotOwned
    | NotApproved
    | PlaintextDisabled
    | SecretsRequired
    | LeaseExpired
    | SecretNotAllowed
    | FingerprintMismatch
    | SecretBackendUnavailable
    | EnvPathMismatch

  datatype Outcome =
    | Created(request: LeaseRequest)
    | Reused(lease: Lease)
    | Granted(lease: Lease)
    | Closed(request: LeaseRequest)
    | Released(values: map<string, string>)
    | Refused(because: Refusal)

  // Requests and leases as inputs of the request policy.

  function SubmitInput(c: Call): Input
    requires c.Submit?
  {
    Input(c.agentID, TrimSpace(c.intent), c.secrets, c.commandFingerprint, c.workdirFingerprint)
  }

  function RequestInput(r: LeaseRequest): Input {
    Input(r.agentID, r.intent, r.secrets, r.commandFingerprint, r.workdirFingerprint)
  }

  function LeaseInput(l: Lease): Input {
    Input(l.agentID, l.intent, l.secrets, l.commandFingerprint, l.workdirFingerprint)
  }

  function PendingIDs(w: World): set<string> {
    set id | id in w.requests && w.requests[id].status.Pending?
  }

  function PendingOf(w: World, agent: string): set<string> {
    set id | id in PendingIDs(w) && BelongsTo(w.requests[id], agent)
  }

  predicate BelongsTo(r: LeaseRequest, agent: string) {
    TrimSpace(r.agentID) == agent
  }

  function RequestKey(r: LeaseRequest): string {
    EquivalenceKey(RequestInput(r))
  }

  function LeaseKey(l: Lease): string {
    EquivalenceKey(LeaseInput(l))
  }

  /** A listing of the pending requests, each once, in any order. */
  ghost predicate ListsPending(w: World, out: seq<LeaseRequest>) {
    && (forall i | 0 <= i < |out| :: out[i].id in PendingIDs(w) && w.requests[out[i].id] == out[i])
    && (forall i, j | 0 <= i < j < |out| :: out[i].id != out[j].id)
    && (forall id | id in PendingIDs(w) :: w.requests[id] in out)
  }

  /** How long a pending request still blocks an equivalent one; not positive when it does not. */
  function BlocksFor(r: LeaseRequest, cooldown: int, now: int): int {
    cooldown - (if now < r.createdAt then 0 else now - r.createdAt)
  }

  ghost predicate PendingEquivalent(w: World, key: string, id: string) {
    id in PendingIDs(w) && RequestKey(w.requests[id]) == key
  }

  ghost predicate CoolingDown(w: World, key: string, cooldown: int, now: int) {
    exists id :: PendingEquivalent(w, key, id) && BlocksFor(w.requests[id], cooldown, now) > 0
  }

  /** `wait` is the longest time that a pending equivalent request still blocks. */
  ghost predicate IsRetryAfter(w: World, key: string, cooldown: int, now: int, wait: int) {
    && wait > 0
    && (exists id :: PendingEquivalent(w, key, id) && BlocksFor(w.requests[id], cooldown, now) == wait)
    && (forall id | PendingEquivalent(w, key, id) :: BlocksFor(w.requests[id], cooldown, now) <= wait)
  }

  ghost predicate Reusable(w: World, key: string, now: int, tok: string) {
    tok in w.leases && ActiveWithKey(w.leases[tok], key, now)
  }

  predicate ActiveWithKey(l: Lease, key: string, now: int) {
    !l.IsExpired(now) && LeaseKey(l) == key
  }

  ghost predicate NoneReusable(w: World, key: string, now: int) {
    forall tok :: !Reusable(w, key, now, tok)
  }

  // Effects that calls have in common.

  /** Nothing but the clock moved. */
  ghost predicate Untouched(pre: View, post: View) {
    post == pre.(clock := post.clock) && pre.clock <= post.clock
  }

  /** Nothing happened but that `e` was logged. */
  ghost predicate Logs(pre: View, post: View, e: AuditEvent) {
    post == pre.(log := pre.log + [e], clock := post.clock) && pre.clock <= e.timestamp <= post.clock
  }

  /** Nothing but the clock and unrelated audit events moved; the gate may have closed. */
  ghost predicate Idle(pre: View, post: View) {
    && post.mem == pre.mem && post.disk == pre.disk && post.secrets == pre.secrets
    && (post.gateOpen ==> pre.gateOpen)
    && Quietly(pre.log, post.log)
    && pre.clock <= post.clock
  }

  /** A refusal closes the gate only for want of an audit record. */
  ghost predicate Declines(pre: View, post: View, because: Refusal) {
    Idle(pre, post) && (!because.AuditUnavailable? ==> post.gateOpen == pre.gateOpen)
  }

  ghost predicate IdleOpen(pre: View, post: View) {
    Idle(pre, post) && post.gateOpen == pre.gateOpen
  }

  /** Memory becomes `world`, the snapshot follows, and then `event` is logged. */
  ghost predicate Commits(cfg: Config, pre: View, post: View, world: World, event: AuditEvent) {
    && post.mem == world
    && post.disk == (if cfg.persists then world else pre.disk)
    && post.secrets == pre.secrets
    && post.gateOpen == pre.gateOpen
    && Silently(pre.log + [event], post.log)
    && pre.clock <= event.timestamp <= post.clock
  }

  /**
   Memory is as before and the gate is closed. The snapshot may have kept the old state, hold the
   state that was being committed, or hold the restored one; if the rollback reported no failure,
   it is the restored one.
   */
  ghost predicate RollsBack(cfg: Config, pre: View, post: View, world: World, rollbackFailed: bool) {
    && post.mem == pre.mem
    && post.disk in {pre.disk, world, pre.mem}
    && (!rollbackFailed ==> post.disk == if cfg.persists then pre.mem else pre.disk)
    && (!cfg.persists ==> post.disk == pre.disk && !rollbackFailed)
    && post.secrets == pre.secrets
    && !post.gateOpen
    && pre.clock <= post.clock
  }

  /** `event` was not recorded, or, by a sink that fails after appending, it was and stays in the log. */
  ghost predicate LosesEvent(cfg: Config, pre: View, post: View, kind: EventKind, r: LeaseRequest, token: string) {
    || Silently(pre.log, post.log)
    || (!cfg.cleanAudit && exists at :: Silently(pre.log + [EventAbout(kind, at, r, token)], post.log))
  }

  function EventAbout(kind: EventKind, now: int, r: LeaseRequest, token: string): AuditEvent {
    AuditEvent(kind, now, r.agentID, r.taskID, r.id, token, "")
  }

  /** What is logged about a request that the policy answers; agent and task are named without surrounding space. */
  function PolicyEvent(kind: EventKind, now: int, c: Call, requestID: string, token: string): AuditEvent
    requires c.Submit?
  {
    AuditEvent(kind, now, TrimSpace(c.agentID), TrimSpace(c.taskID), requestID, token, "")
  }

  function SecretEvent(kind: EventKind, now: int, l: Lease, secret: string): AuditEvent {
    AuditEvent(kind, now, l.agentID, l.taskID, l.requestID, l.token, secret)
  }

  /** What is logged about the env path of a request, which is named without surrounding space. */
  function EnvPathEvent(kind: EventKind, now: int, r: LeaseRequest): AuditEvent {
    AuditEvent(kind, now, TrimSpace(r.agentID), TrimSpace(r.taskID), TrimSpace(r.id), "", "")
  }

  /** What is new in the log about an env path is about that of `r`, and of that kind. */
  ghost predicate EnvPathTold(log: seq<AuditEvent>, log': seq<AuditEvent>, r: LeaseRequest, kind: EventKind) {
    forall i | |log| <= i < |log'| && log'[i].TellsOfEnvPath() :: log'[i] == EnvPathEvent(kind, log'[i].timestamp, r)
  }

  /** The log ends with the start of an access, or with that and that the secret store failed. */
  ghost predicate EndsInFailure(log: seq<AuditEvent>, l: Lease, secret: string) {
    var n := |log|;
    || (n > 0 && log[n - 1] == SecretEvent(SecretAccessStarted, log[n - 1].timestamp, l, secret))
    || (&& n > 1 && log[n - 2] == SecretEvent(SecretAccessStarted, log[n - 2].timestamp, l, secret)
        && log[n - 1] == SecretEvent(SecretBackendError, log[n - 1].timestamp, l, secret))
  }

  /** Behind the event of a change, at most one more was logged, about the env path of the request if it has one. */
  ghost predicate ThenEnvPath(log: seq<AuditEvent>, log': seq<AuditEvent>, r: LeaseRequest, kind: EventKind) {
    || |log'| == |log| + 1
    || (&& TrimSpace(r.envPath) != "" && |log'| == |log| + 2
        && log'[|log| + 1] == EnvPathEvent(kind, log'[|log| + 1].timestamp, r))
  }

  // Submit

  function NewRequest(c: Call, now: int): LeaseRequest
    requires c.Submit?
  {
    var path := TrimSpace(c.envPath);
    LeaseRequest(c.newID, c.agentID, c.taskID, TrimSpace(c.intent), c.reason, c.ttl, c.secrets,
                 c.commandFingerprint, c.workdirFingerprint, path,
                 if path == "" || c.canonical.None? then "" else c.canonical.value, Pending, now)
  }

  function WithRequest(w: World, r: LeaseRequest): World {
    w.(requests := w.requests[r.id := r])
  }

  /** A lease may be handed out again for the request. */
  predicate MayReuse(cfg: Config, c: Call)
    requires c.Submit?
  {
    cfg.throttle.Effective().enableActiveLeaseReuse && TrimSpace(c.envPath) == ""
  }

  /** No reusable lease was found at some moment up to `until`, if one was looked for. */
  ghost predicate PassesReuse(cfg: Config, pre: View, c: Call, until: int)
    requires c.Submit?
  {
    MayReuse(cfg, c) ==> exists now | pre.clock <= now <= until :: NoneReusable(pre.mem, EquivalenceKey(SubmitInput(c)), now)
  }

  predicate AtCap(cfg: Config, w: World, c: Call)
    requires c.Submit?
  {
    |PendingOf(w, TrimSpace(c.agentID))| >= cfg.throttle.Effective().maxPendingPerAgent
  }

  /** Nothing in the request policy stood against the request at some moment up to `created`. */
  ghost predicate PassesThrottle(cfg: Config, pre: View, c: Call, created: int)
    requires c.Submit?
  {
    var key, cooldown := EquivalenceKey(SubmitInput(c)), cfg.throttle.Effective().identicalRequestCooldown;
    && PassesReuse(cfg, pre, c, created)
    && !AtCap(cfg, pre.mem, c)
    && (exists now | pre.clock <= now <= created :: !CoolingDown(pre.mem, key, cooldown, now))
  }

  /** An event of the request policy could not be written, or, by a sink that fails after appending, was. */
  ghost predicate PolicyEventFails(cfg: Config, pre: View, post: View, kind: EventKind, c: Call)
    requires c.Submit?
  {
    || Untouched(pre, post)
    || (!cfg.cleanAudit && exists at, id, token :: Logs(pre, post, PolicyEvent(kind, at, c, id, token)))
  }

  /** Creating a request, once nothing in the request policy stands against it. */
  ghost predicate CreateStep(cfg: Config, pre: View, c: Call, out: Outcome, post: View)
    requires c.Submit?
  {
    if !cfg.policy.ValidateRequest(c.ttl, c.secrets) then out == Refused(InvalidRequest) && Untouched(pre, post)
    else if TrimSpace(c.envPath) != "" && c.canonical.None? then out == Refused(EnvPathUnavailable) && Untouched(pre, post)
    else
      match out
      case Created(r) =>
        && pre.clock <= r.createdAt && r == NewRequest(c, r.createdAt)
        && |post.log| == |pre.log| + 1
        && exists at | r.createdAt <= at ::
             Commits(cfg, pre, post, WithRequest(pre.mem, r), EventAbout(RequestCreated, at, r, ""))
      case Refused(CommitFailed(failed)) =>
        && cfg.persists && Silently(pre.log, post.log)
        && exists now | pre.clock <= now <= post.clock ::
             RollsBack(cfg, pre, post, WithRequest(pre.mem, NewRequest(c, now)), failed)
      case Refused(AuditUnavailable(failed)) =>
        exists now | pre.clock <= now <= post.clock ::
          && RollsBack(cfg, pre, post, WithRequest(pre.mem, NewRequest(c, now)), failed)
          && LosesEvent(cfg, pre, post, RequestCreated, NewRequest(c, now), "")
      case _ => false
  }

  /** The wait told to a throttled caller is at least a second. */
  function ReportedWait(wait: int): int {
    if wait < SECOND then SECOND else wait
  }

  /** The request policy answers by itself: with a lease, or with a refusal that is not about the request. */
  predicate IsPolicyAnswer(out: Outcome) {
    out.Reused? || (out.Refused? && (out.because.Throttled? || out.because.AuditWriteFailed?))
  }

  ghost predicate PolicyStep(cfg: Config, pre: View, c: Call, out: Outcome, post: View)
    requires c.Submit?
  {
    var key, cooldown := EquivalenceKey(SubmitInput(c)), cfg.throttle.Effective().identicalRequestCooldown;
    match out
    case Reused(l) =>
      && MayReuse(cfg, c)
      && (exists now | pre.clock <= now <= post.clock :: Reusable(pre.mem, key, now, l.token) && pre.mem.leases[l.token] == l)
      && exists at :: Logs(pre, post, PolicyEvent(RequestReusedActiveLease, at, c, l.requestID, l.token))
    case Refused(Throttled(PendingCap, wait)) =>
      && PassesReuse(cfg, pre, c, post.clock)
      && AtCap(cfg, pre.mem, c)
      && wait == ReportedWait(cooldown)
      && exists at :: Logs(pre, post, PolicyEvent(RequestThrottledPendingCap, at, c, "", ""))
    case Refused(Throttled(Cooldown, wait)) =>
      && PassesReuse(cfg, pre, c, post.clock)
      && !AtCap(cfg, pre.mem, c)
      && (exists now, exact | pre.clock <= now <= post.clock ::
            IsRetryAfter(pre.mem, key, cooldown, now, exact) && wait == ReportedWait(exact))
      && exists at :: Logs(pre, post, PolicyEvent(RequestThrottledCooldown, at, c, "", ""))
    case Refused(AuditWriteFailed) =>
      || (&& MayReuse(cfg, c)
          && (exists now, tok | pre.clock <= now <= post.clock :: Reusable(pre.mem, key, now, tok))
          && PolicyEventFails(cfg, pre, post, RequestReusedActiveLease, c))
      || (&& PassesReuse(cfg, pre, c, post.clock)
          && AtCap(cfg, pre.mem, c)
          && PolicyEventFails(cfg, pre, post, RequestThrottledPendingCap, c))
      || (&& PassesReuse(cfg, pre, c, post.clock)
          && !AtCap(cfg, pre.mem, c)
          && (exists now | pre.clock <= now <= post.clock :: CoolingDown(pre.mem, key, cooldown, now))
          && PolicyEventFails(cfg, pre, post, RequestThrottledCooldown, c))
    case _ => false
  }

  lemma LogsIsIdle(pre: View, post: View, e: AuditEvent)
    requires Logs(pre, post, e) && !e.ChangesRequests() && !e.TellsOfAccess()
    ensures IdleOpen(pre, post) && Silently(pre.log, post.log)
  {
  }

  lemma PolicyEventFailsIsIdle(cfg: Config, pre: View, post: View, kind: EventKind, c: Call)
    requires c.Submit? && PolicyEventFails(cfg, pre, post, kind, c)
    requires kind in {RequestReusedActiveLease, RequestThrottledPendingCap, RequestThrottledCooldown}
    ensures IdleOpen(pre, post) && Silently(pre.log, post.log)
  {
    if !Untouched(pre, post) {
      var at, id, token :| Logs(pre, post, PolicyEvent(kind, at, c, id, token));
      LogsIsIdle(pre, post, PolicyEvent(kind, at, c, id, token));
    }
  }

  lemma ThrottledIsIdle(cfg: Config, pre: View, c: Call, why: ThrottleReason, wait: int, post: View)
    requires c.Submit? && PolicyStep(cfg, pre, c, Refused(Throttled(why, wait)), post)
    ensures IdleOpen(pre, post) && Silently(pre.log, post.log)
  {
    var kind := if why.PendingCap? then RequestThrottledPendingCap else RequestThrottledCooldown;
    var at :| Logs(pre, post, PolicyEvent(kind, at, c, "", ""));
    LogsIsIdle(pre, post, PolicyEvent(kind, at, c, "", ""));
  }

  lemma UnwrittenIsIdle(cfg: Config, pre: View, c: Call, post: View)
    requires c.Submit? && PolicyStep(cfg, pre, c, Refused(AuditWriteFailed), post)
    ensures IdleOpen(pre, post) && Silently(pre.log, post.log)
  {
    if PolicyEventFails(cfg, pre, post, RequestReusedActiveLease, c) {
      PolicyEventFailsIsIdle(cfg, pre, post, RequestReusedActiveLease, c);
    } else if PolicyEventFails(cfg, pre, post, RequestThrottledPendingCap, c) {
      PolicyEventFailsIsIdle(cfg, pre, post, RequestThrottledPendingCap, c);
    } else {
      PolicyEventFailsIsIdle(cfg, pre, post, RequestThrottledCooldown, c);
    }
  }

  /** Such an answer moves nothing but the clock and the log. */
  lemma PolicyStepIsIdle(cfg: Config, pre: View, c: Call, out: Outcome, post: View)
    requires c.Submit? && PolicyStep(cfg, pre, c, out, post)
    ensures IdleOpen(pre, post) && Silently(pre.log, post.log)
  {
    match out
    case Reused(l) =>
      var at :| Logs(pre, post, PolicyEvent(RequestReusedActiveLease, at, c, l.requestID, l.token));
      LogsIsIdle(pre, post, PolicyEvent(RequestReusedActiveLease, at, c, l.requestID, l.token));
    case Refused(Throttled(why, wait)) => ThrottledIsIdle(cfg, pre, c, why, wait, post);
    case Refused(AuditWriteFailed) => UnwrittenIsIdle(cfg, pre, c, post);
  }

  ghost predicate SubmitStep(cfg: Config, pre: View, c: Call, out: Outcome, post: View)
    requires c.Submit?
  {
    if !cfg.policy.ValidateRequest(c.ttl, c.secrets) then out == Refused(InvalidRequest) && Untouched(pre, post)
    else if IsPolicyAnswer(out) then PolicyStep(cfg, pre, c, out, post)
    else
      && PassesThrottle(cfg, pre, c, if out.Created? then out.request.createdAt else post.clock)
      && CreateStep(cfg, pre, c, out, post)
  }

  // Approve, deny and cancel

  function NewLease(r: LeaseRequest, token: string, expiresAt: int): Lease {
    Lease(token, r.id, r.agentID, r.taskID, r.intent, r.secrets, r.commandFingerprint, r.workdirFingerprint, expiresAt)
  }

  function EffectiveTTL(r: LeaseRequest, ttlMinutes: int): int {
    if ttlMinutes == 0 then r.ttlMinutes else ttlMinutes
  }

  function WithDecision(w: World, id: string, status: RequestStatus): World
    requires id in w.requests
  {
    w.(requests := w.requests[id := w.requests[id].(status := status)])
  }

  function WithLease(w: World, l: Lease): World {
    w.(leases := w.leases[l.token := l])
  }

  /** The world after approving request `id` at instant `approved`. */
  function ApprovedWorld(w: World, c: Call, approved: int): World
    requires c.Approve? && c.requestID in w.requests
  {
    var r := w.requests[c.requestID];
    WithLease(WithDecision(w, c.requestID, Approved),
              NewLease(r, c.newToken, approved + EffectiveTTL(r, c.ttlMinutes) * MINUTE))
  }

  ghost predicate ApproveStep(cfg: Config, pre: View, c: Call, out: Outcome, post: View)
    requires c.Approve?
  {
    if c.requestID !in pre.mem.requests then out == Refused(NotFound) && Untouched(pre, post)
    else
      var r := pre.mem.requests[c.requestID];
      var ttl := EffectiveTTL(r, c.ttlMinutes);
      if !r.status.Pending? then out == Refused(NotPending) && Untouched(pre, post)
      else if !cfg.policy.ValidateRequest(ttl, r.secrets) then out == Refused(InvalidRequest) && Untouched(pre, post)
      else
        match out
        case Granted(l) =>
          && ThenEnvPath(pre.log, post.log, r, EnvPathConfirmed)
          && exists approved, at | pre.clock <= approved <= at ::
               && l == NewLease(r, c.newToken, approved + ttl * MINUTE)
               && Commits(cfg, pre, post, ApprovedWorld(pre.mem, c, approved),
                          EventAbout(RequestApproved, at, r, c.newToken))
        case Refused(CommitFailed(failed)) =>
          && cfg.persists && Silently(pre.log, post.log)
          && exists approved | pre.clock <= approved <= post.clock ::
               RollsBack(cfg, pre, post, ApprovedWorld(pre.mem, c, approved), failed)
        case Refused(AuditUnavailable(failed)) =>
          && LosesEvent(cfg, pre, post, RequestApproved, r, c.newToken)
          && exists approved | pre.clock <= approved <= post.clock ::
               RollsBack(cfg, pre, post, ApprovedWorld(pre.mem, c, approved), failed)
        case _ => false
  }

  /** Denial by an operator and cancellation by an agent differ in who may ask and what is logged. */
  ghost predicate CloseStep(cfg: Config, pre: View, id: string, byAgent: string, kind: EventKind, out: Outcome, post: View) {
    if id !in pre.mem.requests then out == Refused(NotFound) && Untouched(pre, post)
    else
      var r := pre.mem.requests[id];
      if byAgent != "" && r.agentID != byAgent then out == Refused(NotOwned) && Untouched(pre, post)
      else if !r.status.Pending? then out == Refused(NotPending) && Untouched(pre, post)
      else
        var world := WithDecision(pre.mem, id, Denied);
        match out
        case Closed(closed) =>
          && closed == r.(status := Denied)
          && (if kind.RequestDenied? then ThenEnvPath(pre.log, post.log, r, EnvPathRejected) else |post.log| == |pre.log| + 1)
          && exists at :: Commits(cfg, pre, post, world, EventAbout(kind, at, r, ""))
        case Refused(CommitFailed(failed)) => cfg.persists && RollsBack(cfg, pre, post, world, failed) && Silently(pre.log, post.log)
        case Refused(AuditUnavailable(failed)) =>
          RollsBack(cfg, pre, post, world, failed) && LosesEvent(cfg, pre, post, kind, r, "")
        case _ => false
  }

  // Release of secrets

  /** Who may use the lease, and from which command and directory. */
  predicate MayUse(l: Lease, caller: string, commandFingerprint: string, workdirFingerprint: string) {
    && (caller != "" ==> l.agentID == caller)
    && (l.commandFingerprint != "" ==> l.commandFingerprint == commandFingerprint)
    && (l.workdirFingerprint != "" ==> l.workdirFingerprint == workdirFingerprint)
  }

  /**
   The lease was found unexpired at `now`, after which the start and then the completion of the
   access were logged, in the part of `log'` that goes beyond `log`.
   */
  ghost predicate AccessLogged(log: seq<AuditEvent>, log': seq<AuditEvent>, l: Lease, secret: string, now: int) {
    exists i, j, at, done | |log| <= i < j < |log'| && now <= at <= done ::
      && log'[i] == SecretEvent(SecretAccessStarted, at, l, secret)
      && log'[j] == SecretEvent(SecretAccess, done, l, secret)
  }

  ghost predicate ReleasesSecret(pre: View, post: View, l: Lease, secret: string) {
    && l.Allows(secret)
    && exists now | pre.clock <= now <= post.clock ::
         !l.IsExpired(now) && AccessLogged(pre.log, post.log, l, secret, now)
  }

  /** Why a lease, found in the store, may be turned away; the last two only after the first checks. */
  ghost predicate LeaseRefusal(pre: View, post: View, l: Lease, caller: string, commandFingerprint: string,
                               workdirFingerprint: string, asked: set<string>, backend: map<string, string>, because: Refusal)
  {
    match because
    case NotOwned => caller != "" && l.agentID != caller
    case LeaseExpired => exists now | pre.clock <= now <= post.clock :: l.IsExpired(now)
    case SecretNotAllowed => exists n | n in asked :: !l.Allows(n)
    case FingerprintMismatch => !MayUse(l, "", commandFingerprint, workdirFingerprint)
    case AuditUnavailable(_) => !post.gateOpen
    case SecretBackendUnavailable => exists n | n in asked :: n !in backend && EndsInFailure(post.log, l, n)
    case _ => false
  }

  /** The secrets that a call asks for. */
  function Asked(c: Call): set<string>
    requires c.Access? || c.Resolve?
  {
    if c.Access? then {c.secret} else Names(c.names)
  }

  /** The lease, at an instant from `since` and no later than the event, stands behind the access that it tells of. */
  ghost predicate Earned(l: Lease, asked: set<string>, since: int, e: AuditEvent) {
    && e == SecretEvent(e.kind, e.timestamp, l, e.secret)
    && e.secret in asked && l.Allows(e.secret)
    && exists now | since <= now <= e.timestamp :: !l.IsExpired(now)
  }

  ghost predicate AllEarned(log: seq<AuditEvent>, log': seq<AuditEvent>, l: Lease, asked: set<string>, since: int) {
    forall i | |log| <= i < |log'| && log'[i].TellsOfAccess() :: Earned(l, asked, since, log'[i])
  }

  /** What is logged about accesses beyond `log` tells of nothing twice. */
  ghost predicate EachOnce(log: seq<AuditEvent>, log': seq<AuditEvent>) {
    forall i, j | |log| <= i < j < |log'| && log'[i].TellsOfAccess() && log'[i].kind == log'[j].kind ::
      log'[i].secret != log'[j].secret
  }

  /** Released or not, a call logs only accesses that it has earned, each once. */
  ghost predicate AccessesEarned(pre: View, c: Call, post: View)
    requires c.Access? || c.Resolve?
  {
    || Silently(pre.log, post.log)
    || (&& c.leaseToken in pre.mem.leases
        && var l := pre.mem.leases[c.leaseToken];
        && MayUse(l, c.caller, c.cmdFingerprint, c.wdFingerprint)
        && AllEarned(pre.log, post.log, l, Asked(c), pre.clock)
        && EachOnce(pre.log, post.log))
  }

  ghost predicate AccessStep(cfg: Config, pre: View, c: Call, out: Outcome, post: View)
    requires c.Access?
  {
    && AccessesEarned(pre, c, post)
    && match out
    case Released(values) =>
      && IdleOpen(pre, post)
      && cfg.allowPlaintext
      && c.leaseToken in pre.mem.leases
      && var l := pre.mem.leases[c.leaseToken];
      && MayUse(l, c.caller, c.cmdFingerprint, c.wdFingerprint)
      && c.secret in c.backend && values == map[c.secret := c.backend[c.secret]]
      && ReleasesSecret(pre, post, l, c.secret)
    case Refused(because) =>
      && Declines(pre, post, because)
      && (if !cfg.allowPlaintext then
            && Silently(pre.log, post.log)
            && (|| (because.PlaintextDisabled? && exists at :: Logs(pre, post, SystemEvent(PlaintextSecretAccessBlocked, at)))
                || (because.AuditUnavailable? && !post.gateOpen))
          else if c.leaseToken !in pre.mem.leases then because.NotFound? && Untouched(pre, post)
          else LeaseRefusal(pre, post, pre.mem.leases[c.leaseToken], c.caller, c.cmdFingerprint, c.wdFingerprint,
                            {c.secret}, c.backend, because))
    case _ => false
  }

  ghost predicate ResolveStep(cfg: Config, pre: View, c: Call, out: Outcome, post: View)
    requires c.Resolve?
  {
    && AccessesEarned(pre, c, post)
    && match out
    case Released(values) =>
      && IdleOpen(pre, post)
      && c.leaseToken in pre.mem.leases
      && var l := pre.mem.leases[c.leaseToken];
      && MayUse(l, c.caller, c.cmdFingerprint, c.wdFingerprint)
      && l.requestID in pre.mem.requests
      && var r := pre.mem.requests[l.requestID];
      && r.status.Approved? && (c.caller != "" ==> r.agentID == c.caller)
      && values.Keys == Names(c.names) && values.Keys != {}
      && (forall n | n in values :: ReleasesSecret(pre, post, l, n))
      && (if TrimSpace(r.envPath) == ""
          then forall n | n in values :: n in c.backend && values[n] == c.backend[n]
          else
            && c.envFile == Some((values, c.approvedNow)) && c.approvedNow != ""
            && EnvPathTold(pre.log, post.log, r, EnvPathConfirmed))
    case Refused(because) =>
      && Declines(pre, post, because)
      && (if Names(c.names) == {} then because.SecretsRequired? && Untouched(pre, post)
          else if c.leaseToken !in pre.mem.leases then because.NotFound? && Untouched(pre, post)
          else
            var l := pre.mem.leases[c.leaseToken];
            || (&& LeaseRefusal(pre, post, l, c.caller, c.cmdFingerprint, c.wdFingerprint, Names(c.names), c.backend, because)
                && (because.SecretBackendUnavailable? ==>
                      l.requestID in pre.mem.requests && TrimSpace(pre.mem.requests[l.requestID].envPath) == ""))
            || RequestRefusal(pre, post, c, l.requestID, because))
    case _ => false
  }

  /** Why the request behind a lease may stand in the way. */
  ghost predicate RequestRefusal(pre: View, post: View, c: Call, id: string, because: Refusal)
    requires c.Resolve?
  {
    if id !in pre.mem.requests then because.NotFound?
    else
      var r := pre.mem.requests[id];
      match because
      case NotOwned => c.caller != "" && r.agentID != c.caller
      case NotApproved => !r.status.Approved?
      case SecretBackendUnavailable =>
        TrimSpace(r.envPath) != "" && c.envFile.None? && EnvPathTold(pre.log, post.log, r, EnvPathRejected)
      case EnvPathMismatch =>
        && TrimSpace(r.envPath) != "" && (c.approvedNow == "" || (c.envFile.Some? && c.envFile.value.1 != c.approvedNow))
        && EnvPathTold(pre.log, post.log, r, EnvPathRejected)
      case _ => false
  }

  /** One handler call: refused outright once the gate is closed. */
  ghost predicate Step(cfg: Config, pre: View, c: Call, out: Outcome, post: View) {
    if !pre.gateOpen then out == Refused(DurabilityClosed) && Untouched(pre, post)
    else
      match c
      case Submit(_, _, _, _, _, _, _, _, _, _, _) => SubmitStep(cfg, pre, c, out, post)
      case Approve(_, _, _) => ApproveStep(cfg, pre, c, out, post)
      case Deny(id) => CloseStep(cfg, pre, id, "", RequestDenied, out, post)
      case Cancel(id, agent) => CloseStep(cfg, pre, id, agent, RequestCancelledByAgent, out, post)
      case Access(_, _, _, _, _, _) => AccessStep(cfg, pre, c, out, post)
      case Resolve(_, _, _, _, _, _, _, _) => ResolveStep(cfg, pre, c, out, post)
  }

  /**
   What random identifiers, the secret store and the file system guarantee: new identifiers are unused,
   the store answers only with what it holds, a file that was read answers for exactly the names asked
   for, and only a blank path has no canonical form.
   */
  ghost predicate Admissible(v: View, c: Call) {
    && (c.Submit? ==> c.newID !in v.mem.requests)
    && (c.Approve? ==> c.newToken !in v.mem.leases)
    && (c.Access? || c.Resolve? ==> forall n | n in c.backend :: n in v.secrets && v.secrets[n] == c.backend[n])
    && (c.Resolve? && c.envFile.Some? ==> c.envFile.value.0.Keys == Names(c.names))
    && (c.Resolve? && c.leaseToken in v.mem.leases && v.mem.leases[c.leaseToken].requestID in v.mem.requests ==>
          (c.approvedNow == "" <==> TrimSpace(v.mem.requests[v.mem.leases[c.leaseToken].requestID].envPathCanonical) == ""))
  }
}
