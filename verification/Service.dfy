/** The lease service (`internal/app`), changing its stores step by step. */
module Services {
  import opened Prelude
  import opened Text
  import opened Time
  import opened Domain
  import opened RequestPolicy
  import opened Durability
  import opened Broker

  /** A compensation that a failed mutation registers. */
  datatype Compensation =
    | DeleteRequest(id: string)
    | DeleteLease(token: string)
    | RestoreRequest(original: LeaseRequest)

  /** The effect of a compensation on the store; deleting what is not there is an error. */
  function Compensate(w: World, c: Compensation): (World, bool) {
    match c
    case DeleteRequest(id) => (w.(requests := w.requests - {id}), id in w.requests)
    case DeleteLease(token) => (w.(leases := w.leases - {token}), token in w.leases)
    case RestoreRequest(original) => (w.(requests := w.requests[original.id := original]), true)
  }

  function CompensateAll(w: World, cs: seq<Compensation>): (World, bool) {
    if cs == [] then (w, true)
    else
      var (w1, ok1) := CompensateAll(w, cs[..|cs| - 1]);
      var (w2, ok2) := Compensate(w1, cs[|cs| - 1]);
      (w2, ok1 && ok2)
  }

  /** The mutation that led from `pre` to `mid` was committed and logged. */
  ghost predicate CommitsSince(cfg: Config, pre: View, mid: View, post: View, kind: EventKind, r: LeaseRequest, token: string) {
    exists at | mid.clock <= at :: Commits(cfg, pre, post, mid.mem, EventAbout(kind, at, r, token))
  }

  lemma CommitsThenQuiet(cfg: Config, pre: View, mid: View, done: View, post: View, kind: EventKind, r: LeaseRequest, token: string)
    requires CommitsSince(cfg, pre, mid, done, kind, r, token)
    requires post == done.(log := post.log, clock := post.clock) && done.clock <= post.clock
    requires Silently(done.log, post.log)
    ensures CommitsSince(cfg, pre, mid, post, kind, r, token)
  {
  }

  lemma EventLost(cfg: Config, pre: View, log: seq<AuditEvent>, post: View, kind: EventKind, now: int, r: LeaseRequest, token: string)
    requires log == pre.log || (!cfg.cleanAudit && log == pre.log + [EventAbout(kind, now, r, token)])
    requires Silently(log, post.log)
    ensures LosesEvent(cfg, pre, post, kind, r, token)
  {
  }

  lemma CreationDone(cfg: Config, pre: View, mid: View, c: Call, r: LeaseRequest, post: View)
    requires c.Submit? && cfg.policy.ValidateRequest(c.ttl, c.secrets) && (TrimSpace(c.envPath) != "" ==> c.canonical.Some?)
    requires pre.clock <= r.createdAt == mid.clock && r == NewRequest(c, r.createdAt) && mid.mem == WithRequest(pre.mem, r)
    requires CommitsSince(cfg, pre, mid, post, RequestCreated, r, "") && |post.log| == |pre.log| + 1
    ensures CreateStep(cfg, pre, c, Created(r), post)
  {
  }

  lemma CreationRefused(cfg: Config, pre: View, c: Call, now: int, because: Refusal, post: View)
    requires c.Submit? && cfg.policy.ValidateRequest(c.ttl, c.secrets) && (TrimSpace(c.envPath) != "" ==> c.canonical.Some?)
    requires pre.clock <= now <= post.clock && (because.CommitFailed? || because.AuditUnavailable?)
    requires RollsBack(cfg, pre, post, WithRequest(pre.mem, NewRequest(c, now)), because.rollbackFailed)
    requires because.CommitFailed? ==> cfg.persists && Silently(pre.log, post.log)
    requires because.AuditUnavailable? ==> LosesEvent(cfg, pre, post, RequestCreated, NewRequest(c, now), "")
    ensures CreateStep(cfg, pre, c, Refused(because), post)
  {
  }

  lemma ApprovalRefused(cfg: Config, pre: View, c: Call, approved: int, because: Refusal, post: View)
    requires c.Approve? && c.requestID in PendingIDs(pre.mem)
    requires cfg.policy.ValidateRequest(EffectiveTTL(pre.mem.requests[c.requestID], c.ttlMinutes), pre.mem.requests[c.requestID].secrets)
    requires pre.clock <= approved <= post.clock && (because.CommitFailed? || because.AuditUnavailable?)
    requires RollsBack(cfg, pre, post, ApprovedWorld(pre.mem, c, approved), because.rollbackFailed)
    requires because.CommitFailed? ==> cfg.persists && Silently(pre.log, post.log)
    requires because.AuditUnavailable? ==> LosesEvent(cfg, pre, post, RequestApproved, pre.mem.requests[c.requestID], c.newToken)
    ensures ApproveStep(cfg, pre, c, Refused(because), post)
  {
  }

  lemma ApprovalGrants(cfg: Config, pre: View, mid: View, c: Call, approved: int, post: View)
    requires c.Approve? && c.requestID in PendingIDs(pre.mem)
    requires cfg.policy.ValidateRequest(EffectiveTTL(pre.mem.requests[c.requestID], c.ttlMinutes), pre.mem.requests[c.requestID].secrets)
    requires mid.mem == ApprovedWorld(pre.mem, c, approved) && pre.clock <= approved <= mid.clock
    requires CommitsSince(cfg, pre, mid, post, RequestApproved, pre.mem.requests[c.requestID], c.newToken)
    requires ThenEnvPath(pre.log, post.log, pre.mem.requests[c.requestID], EnvPathConfirmed)
    ensures ApproveStep(cfg, pre, c, Granted(mid.mem.leases[c.newToken]), post)
  {
  }

  function ThrottleKind(why: ThrottleReason): EventKind {
    if why.PendingCap? then RequestThrottledPendingCap else RequestThrottledCooldown
  }

  class Service {
    const cfg: Config
    const gate: DurabilityGate
    var requests: map<string, LeaseRequest>
    var leases: map<string, Lease>
    var secrets: map<string, string>
    var disk: World

    constructor (cfg: Config, gate: DurabilityGate, secrets: map<string, string>)
      requires cfg.cleanAudit == gate.sink.clean
      ensures this.cfg == cfg && this.gate == gate && this.secrets == secrets
      ensures Memory() == World(map[], map[]) && disk == World(map[], map[])
      ensures Valid()
    {
      this.cfg := cfg;
      this.gate := gate;
      this.requests, this.leases := map[], map[];
      this.secrets := secrets;
      this.disk := World(map[], map[]);
    }

    ghost function Memory(): World
      reads this
    {
      World(requests, leases)
    }

    ghost predicate Valid()
      reads this
    {
      WellKeyed(Memory()) && cfg.cleanAudit == gate.sink.clean
    }

    ghost function Observed(): View
      reads this, gate, gate.sink, gate.clock
    {
      View(Memory(), disk, secrets, !gate.closed, gate.sink.log, gate.clock.time)
    }

    // Durability

    /** Writes a snapshot; a failure leaves the old one or, when only a late sync failed, the new one. */
    method SaveStateToFile() returns (ok: bool)
      modifies this`disk
      ensures ok ==> disk == Memory()
      ensures !ok ==> disk == old(disk) || disk == Memory()
    {
      ok := *;
      var renamed: bool := *;
      if ok || renamed {
        disk := World(requests, leases);
      }
    }

    method CommitRequestLeaseState() returns (ok: bool)
      modifies this`disk, gate, gate.sink, gate.clock
      ensures ok ==> disk == (if cfg.persists then Memory() else old(disk))
      ensures ok ==> gate.closed == old(gate.closed) && gate.sink.log == old(gate.sink.log)
      ensures !ok ==> cfg.persists && gate.closed && disk in {old(disk), Memory()}
      ensures Silently(old(gate.sink.log), gate.sink.log)
      ensures old(gate.clock.time) <= gate.clock.time
      ensures old(gate.closed) ==> gate.closed
    {
      if !cfg.persists {
        return true;
      }
      ok := SaveStateToFile();
      if !ok {
        gate.CloseDurabilityGate(RequestLeaseState);
      }
    }

    method RunCompensation(c: Compensation) returns (ok: bool)
      modifies this`requests, this`leases
      ensures (Memory(), ok) == Compensate(old(Memory()), c)
    {
      ok := true;
      match c
      case DeleteRequest(id) =>
        ok := id in requests;
        requests := requests - {id};
      case DeleteLease(token) =>
        ok := token in leases;
        leases := leases - {token};
      case RestoreRequest(original) =>
        requests := requests[original.id := original];
    }

    /** Runs every compensation, then commits again; reports whether any of it failed. */
    method RollbackRequestLeaseMutation(cs: seq<Compensation>) returns (failed: bool)
      modifies this`requests, this`leases, this`disk, gate, gate.sink, gate.clock
      ensures Memory() == CompensateAll(old(Memory()), cs).0
      ensures !failed ==> CompensateAll(old(Memory()), cs).1
      ensures !failed ==> disk == (if cfg.persists then Memory() else old(disk))
      ensures !cfg.persists ==> failed == !CompensateAll(old(Memory()), cs).1
      ensures disk in {old(disk), Memory()}
      ensures !cfg.persists ==> disk == old(disk)
      ensures Silently(old(gate.sink.log), gate.sink.log)
      ensures old(gate.clock.time) <= gate.clock.time
      ensures old(gate.closed) ==> gate.closed
    {
      failed := false;
      for i := 0 to |cs|
        invariant (Memory(), !failed) == CompensateAll(old(Memory()), cs[..i])
        modifies this`requests, this`leases
      {
        assert cs[..i + 1][..i] == cs[..i];
        var ok := RunCompensation(cs[i]);
        if !ok {
          failed := true;
        }
      }
      assert cs[..|cs|] == cs;
      var ok := CommitRequestLeaseState();
      if !ok {
        failed := true;
      }
    }

    /**
     The tail of every mutation: commit, then log the event; if either fails, undo and commit again.
     `pre` is the view before the mutation, `r` and `token` what the event is about.
     */
    method CommitAndAudit(kind: EventKind, r: LeaseRequest, token: string, undo: seq<Compensation>, ghost pre: View)
      returns (refusal: Option<Refusal>)
      requires CompensateAll(Memory(), undo) == (pre.mem, true) && cfg.cleanAudit == gate.sink.clean
      requires Observed() == pre.(mem := Memory(), clock := gate.clock.time) && pre.clock <= gate.clock.time
      modifies this`requests, this`leases, this`disk, gate, gate.sink, gate.clock
      ensures refusal.None? ==> CommitsSince(cfg, pre, old(Observed()), Observed(), kind, r, token)
      ensures refusal.None? ==> |gate.sink.log| == |pre.log| + 1
      ensures refusal.Some? ==> refusal.value.CommitFailed? || refusal.value.AuditUnavailable?
      ensures refusal.Some? ==> RollsBack(cfg, pre, Observed(), old(Memory()), refusal.value.rollbackFailed)
      ensures refusal.Some? && refusal.value.CommitFailed? ==> cfg.persists && Silently(pre.log, gate.sink.log)
      ensures refusal.Some? && refusal.value.AuditUnavailable? ==> LosesEvent(cfg, pre, Observed(), kind, r, token)
      ensures old(gate.clock.time) <= gate.clock.time
    {
      var ok := CommitRequestLeaseState();
      if !ok {
        var failed := RollbackRequestLeaseMutation(undo);
        return Some(CommitFailed(failed));
      }
      refusal := AuditCommitted(kind, r, token, undo, pre);
    }

    /** The second half of that tail: the mutation is committed, its event is still to be logged. */
    method AuditCommitted(kind: EventKind, r: LeaseRequest, token: string, undo: seq<Compensation>, ghost pre: View)
      returns (refusal: Option<Refusal>)
      requires CompensateAll(Memory(), undo) == (pre.mem, true) && cfg.cleanAudit == gate.sink.clean
      requires pre.clock <= gate.clock.time
      requires Observed()
            == pre.(mem := Memory(), disk := if cfg.persists then Memory() else pre.disk, clock := gate.clock.time)
      modifies this`requests, this`leases, this`disk, gate, gate.sink, gate.clock
      ensures refusal.None? ==> CommitsSince(cfg, pre, old(Observed()), Observed(), kind, r, token)
      ensures refusal.None? ==> |gate.sink.log| == |pre.log| + 1
      ensures refusal.Some? ==> refusal.value.AuditUnavailable?
      ensures refusal.Some? ==> RollsBack(cfg, pre, Observed(), old(Memory()), refusal.value.rollbackFailed)
      ensures refusal.Some? ==> LosesEvent(cfg, pre, Observed(), kind, r, token)
      ensures old(gate.clock.time) <= gate.clock.time
    {
      var now := gate.clock.Now();
      var ok := gate.AuditCritical(EventAbout(kind, now, r, token));
      if !ok {
        ghost var log := gate.sink.log;
        var failed := RollbackRequestLeaseMutation(undo);
        EventLost(cfg, pre, log, Observed(), kind, now, r, token);
        return Some(AuditUnavailable(failed));
      }
      return None;
    }

    /** The same for decisions, which also log, at best effort, what became of an env path. */
    method CommitAndAuditDecision(kind: EventKind, envKind: EventKind, r: LeaseRequest, token: string,
                                  undo: seq<Compensation>, ghost pre: View)
      returns (refusal: Option<Refusal>)
      requires envKind.EnvPathConfirmed? || envKind.EnvPathRejected?
      requires CompensateAll(Memory(), undo) == (pre.mem, true) && cfg.cleanAudit == gate.sink.clean
      requires Observed() == pre.(mem := Memory(), clock := gate.clock.time) && pre.clock <= gate.clock.time
      modifies this`requests, this`leases, this`disk, gate, gate.sink, gate.clock
      ensures refusal.None? ==> CommitsSince(cfg, pre, old(Observed()), Observed(), kind, r, token)
      ensures refusal.None? ==> ThenEnvPath(pre.log, gate.sink.log, r, envKind)
      ensures refusal.Some? ==> refusal.value.CommitFailed? || refusal.value.AuditUnavailable?
      ensures refusal.Some? ==> RollsBack(cfg, pre, Observed(), old(Memory()), refusal.value.rollbackFailed)
      ensures refusal.Some? && refusal.value.CommitFailed? ==> cfg.persists && Silently(pre.log, gate.sink.log)
      ensures refusal.Some? && refusal.value.AuditUnavailable? ==> LosesEvent(cfg, pre, Observed(), kind, r, token)
      ensures old(gate.clock.time) <= gate.clock.time
    {
      ghost var mid := Observed();
      refusal := CommitAndAudit(kind, r, token, undo, pre);
      if refusal.Some? {
        return;
      }
      ghost var done := Observed();
      if TrimSpace(r.envPath) != "" {
        AuditEnvPath(envKind, r);
      }
      CommitsThenQuiet(cfg, pre, mid, done, Observed(), kind, r, token);
    }

    // Requests

    /** The store update of a request. */
    method StoreRequest(c: Call, envPath: string) returns (req: LeaseRequest)
      requires Valid() && c.Submit? && c.newID !in requests
      requires envPath == TrimSpace(c.envPath) && (envPath != "" ==> c.canonical.Some?)
      modifies this`requests, gate.clock
      ensures old(gate.clock.time) <= gate.clock.time && req == NewRequest(c, gate.clock.time)
      ensures Memory() == WithRequest(old(Memory()), req)
      ensures CompensateAll(Memory(), [DeleteRequest(req.id)]) == (old(Memory()), true)
    {
      var now := gate.clock.Now();
      req := LeaseRequest(c.newID, c.agentID, c.taskID, TrimSpace(c.intent), c.reason, c.ttl, c.secrets,
                          c.commandFingerprint, c.workdirFingerprint, envPath,
                          if envPath == "" then "" else c.canonical.value, Pending, now);
      requests := requests[req.id := req];
      UndoCreate(old(Memory()), req);
    }

    method RequestLeaseUnlocked(c: Call) returns (out: Outcome)
      requires Valid() && c.Submit? && c.newID !in requests
      modifies this`requests, this`leases, this`disk, gate, gate.sink, gate.clock
      ensures Valid()
      ensures CreateStep(cfg, old(Observed()), c, out, Observed())
    {
      ghost var pre := Observed();
      if !cfg.policy.ValidateRequest(c.ttl, c.secrets) {
        return Refused(InvalidRequest);
      }
      var envPath := TrimSpace(c.envPath);
      if envPath != "" && c.canonical.None? {
        return Refused(EnvPathUnavailable);
      }
      var req := StoreRequest(c, envPath);
      ghost var mid := Observed();
      var refusal := CommitAndAudit(RequestCreated, req, "", [DeleteRequest(req.id)], pre);
      out := if refusal.Some? then Refused(refusal.value) else Created(req);
      if refusal.Some? {
        CreationRefused(cfg, pre, c, req.createdAt, refusal.value, Observed());
      } else {
        CreationDone(cfg, pre, mid, c, req, Observed());
      }
    }

    // Decisions

    /** The two store updates of an approval. */
    method StoreApproval(c: Call, original: LeaseRequest, ttlMinutes: int) returns (lease: Lease, now: int)
      requires Valid() && c.Approve? && c.newToken !in leases
      requires c.requestID in requests && requests[c.requestID] == original
      requires ttlMinutes == EffectiveTTL(original, c.ttlMinutes)
      modifies this`requests, this`leases, gate.clock
      ensures old(gate.clock.time) <= now == gate.clock.time
      ensures Memory() == ApprovedWorld(old(Memory()), c, now)
      ensures lease.token == c.newToken && leases[c.newToken] == lease
      ensures CompensateAll(Memory(), [DeleteLease(lease.token), RestoreRequest(original)]) == (old(Memory()), true)
    {
      ghost var before := Memory();
      var req := original.(status := Approved);
      requests := requests[req.id := req];
      now := gate.clock.Now();
      lease := Lease(c.newToken, req.id, req.agentID, req.taskID, req.intent, req.secrets,
                     req.commandFingerprint, req.workdirFingerprint, now + ttlMinutes * MINUTE);
      leases := leases[lease.token := lease];
      UndoApprove(before, c, now);
    }

    method ApproveRequestWithActorUnlocked(c: Call) returns (out: Outcome)
      requires Valid() && c.Approve? && c.newToken !in leases
      modifies this`requests, this`leases, this`disk, gate, gate.sink, gate.clock
      ensures Valid()
      ensures ApproveStep(cfg, old(Observed()), c, out, Observed())
    {
      if c.requestID !in requests {
        return Refused(NotFound);
      }
      var req := requests[c.requestID];
      if !req.status.Pending? {
        return Refused(NotPending);
      }
      var ttlMinutes := c.ttlMinutes;
      if ttlMinutes == 0 {
        ttlMinutes := req.ttlMinutes;
      }
      if !cfg.policy.ValidateRequest(ttlMinutes, req.secrets) {
        return Refused(InvalidRequest);
      }
      out := GrantLease(c, req, ttlMinutes);
    }

    /** An approval that has passed its checks. */
    method GrantLease(c: Call, original: LeaseRequest, ttlMinutes: int) returns (out: Outcome)
      requires Valid() && c.Approve? && c.newToken !in leases
      requires c.requestID in PendingIDs(Memory()) && requests[c.requestID] == original
      requires ttlMinutes == EffectiveTTL(original, c.ttlMinutes) && cfg.policy.ValidateRequest(ttlMinutes, original.secrets)
      modifies this`requests, this`leases, this`disk, gate, gate.sink, gate.clock
      ensures Valid()
      ensures ApproveStep(cfg, old(Observed()), c, out, Observed())
    {
      ghost var pre := Observed();
      var lease, now := StoreApproval(c, original, ttlMinutes);
      ghost var mid := Observed();
      var refusal := CommitAndAuditDecision(RequestApproved, EnvPathConfirmed, original, lease.token,
                                            [DeleteLease(lease.token), RestoreRequest(original)], pre);
      out := if refusal.Some? then Refused(refusal.value) else Granted(lease);
      if refusal.Some? {
        ApprovalRefused(cfg, pre, c, now, refusal.value, Observed());
      } else {
        ApprovalGrants(cfg, pre, mid, c, now, Observed());
      }
    }

    method DenyRequestWithActorUnlocked(requestID: string) returns (out: Outcome)
      requires Valid()
      modifies this`requests, this`leases, this`disk, gate, gate.sink, gate.clock
      ensures Valid()
      ensures CloseStep(cfg, old(Observed()), requestID, "", RequestDenied, out, Observed())
    {
      ghost var pre := Observed();
      if requestID !in requests {
        return Refused(NotFound);
      }
      var req := requests[requestID];
      if !req.status.Pending? {
        return Refused(NotPending);
      }
      var original := req;
      req := req.(status := Denied);
      requests := requests[req.id := req];
      UndoDecision(pre.mem, requestID, Denied);
      var refusal := CommitAndAuditDecision(RequestDenied, EnvPathRejected, original, "", [RestoreRequest(original)], pre);
      if refusal.Some? {
        return Refused(refusal.value);
      }
      return Closed(req);
    }

    method CancelRequestByAgentUnlocked(requestID: string, agentID: string) returns (out: Outcome)
      requires Valid()
      modifies this`requests, this`leases, this`disk, gate, gate.sink, gate.clock
      ensures Valid()
      ensures CloseStep(cfg, old(Observed()), requestID, agentID, RequestCancelledByAgent, out, Observed())
    {
      ghost var pre := Observed();
      if requestID !in requests {
        return Refused(NotFound);
      }
      var req := requests[requestID];
      if agentID != "" && req.agentID != agentID {
        return Refused(NotOwned);
      }
      if !req.status.Pending? {
        return Refused(NotPending);
      }
      var original := req;
      req := req.(status := Denied);
      requests := requests[req.id := req];
      UndoDecision(pre.mem, requestID, Denied);
      var refusal := CommitAndAudit(RequestCancelledByAgent, original, "", [RestoreRequest(original)], pre);
      if refusal.Some? {
        return Refused(refusal.value);
      }
      return Closed(req);
    }

    // Requests under the request policy

    method ListPendingRequests() returns (out: seq<LeaseRequest>)
      requires Valid()
      ensures ListsPending(Memory(), out)
    {
      out := [];
      var todo := requests.Keys;
      while todo != {}
        invariant todo <= requests.Keys
        invariant forall i | 0 <= i < |out| ::
          out[i].id in PendingIDs(Memory()) && out[i].id !in todo && requests[out[i].id] == out[i]
        invariant forall i, j | 0 <= i < j < |out| :: out[i].id != out[j].id
        invariant forall id | id in PendingIDs(Memory()) && id !in todo :: requests[id] in out
        decreases todo
      {
        var id :| id in todo;
        todo := todo - {id};
        if requests[id].status.Pending? {
          out := out + [requests[id]];
        }
      }
    }

    method ListLeases() returns (out: seq<Lease>)
      requires Valid()
      ensures forall l | l in out :: l.token in leases && leases[l.token] == l
      ensures forall tok | tok in leases :: leases[tok] in out
      ensures forall i, j | 0 <= i < j < |out| :: out[i].token != out[j].token
    {
      out := [];
      var todo := leases.Keys;
      while todo != {}
        invariant todo <= leases.Keys
        invariant forall l | l in out :: l.token in leases && l.token !in todo && leases[l.token] == l
        invariant forall i, j | 0 <= i < j < |out| :: out[i].token != out[j].token
        invariant forall tok | tok in leases && tok !in todo :: leases[tok] in out
        decreases todo
      {
        var tok :| tok in todo;
        todo := todo - {tok};
        out := out + [leases[tok]];
      }
    }

    method FindEquivalentActiveLease(input: Input) returns (found: Option<Lease>)
      requires Valid()
      modifies gate.clock
      ensures old(gate.clock.time) <= gate.clock.time
      ensures found.Some? ==> Reusable(Memory(), EquivalenceKey(input), gate.clock.time, found.value.token)
      ensures found.Some? ==> leases[found.value.token] == found.value
      ensures found.None? ==> NoneReusable(Memory(), EquivalenceKey(input), gate.clock.time)
    {
      var listed := ListLeases();
      var now := gate.clock.Now();
      found := FirstEquivalent(listed, EquivalenceKey(input), now);
      NoneListed(Memory(), EquivalenceKey(input), now, listed);
    }

    static method FirstEquivalent(listed: seq<Lease>, target: string, now: int) returns (found: Option<Lease>)
      ensures found.Some? ==> found.value in listed && ActiveWithKey(found.value, target, now)
      ensures found.None? ==> forall l | l in listed :: !ActiveWithKey(l, target, now)
    {
      for i := 0 to |listed|
        invariant forall k | 0 <= k < i :: !ActiveWithKey(listed[k], target, now)
      {
        if ActiveWithKey(listed[i], target, now) {
          return Some(listed[i]);
        }
      }
      return None;
    }

    method CountPendingRequestsForAgent(agentID: string, pending: seq<LeaseRequest>) returns (count: nat)
      requires Valid() && ListsPending(Memory(), pending)
      ensures count == |PendingOf(Memory(), TrimSpace(agentID))|
    {
      var target := TrimSpace(agentID);
      count := 0;
      ghost var counted: set<string> := {};
      for i := 0 to |pending|
        invariant count == |counted|
        invariant forall k | 0 <= k < i && BelongsTo(pending[k], target) :: pending[k].id in counted
        invariant forall id | id in counted :: exists k | 0 <= k < i :: pending[k].id == id && BelongsTo(pending[k], target)
      {
        if BelongsTo(pending[i], target) {
          count := count + 1;
          counted := counted + {pending[i].id};
        }
      }
      CountedAll(Memory(), target, pending, counted);
    }

    method EquivalentRequestCooldown(input: Input, pending: seq<LeaseRequest>, cooldown: int) returns (wait: int, throttled: bool)
      requires ListsPending(Memory(), pending)
      modifies gate.clock
      ensures old(gate.clock.time) <= gate.clock.time
      ensures throttled ==> IsRetryAfter(Memory(), EquivalenceKey(input), cooldown, gate.clock.time, wait)
      ensures !throttled ==> !CoolingDown(Memory(), EquivalenceKey(input), cooldown, gate.clock.time)
    {
      if cooldown <= 0 {
        return 0, false;
      }
      var now := gate.clock.Now();
      ghost var longest;
      wait, longest := MaxRetryAfter(EquivalenceKey(input), pending, cooldown, now);
      LongestWait(Memory(), EquivalenceKey(input), cooldown, now, pending, wait, longest);
      throttled := wait > 0;
    }

    static method MaxRetryAfter(target: string, pending: seq<LeaseRequest>, cooldown: int, now: int)
      returns (maxRetryAfter: int, ghost longest: int)
      ensures IsLongest(target, pending, cooldown, now, maxRetryAfter, longest)
    {
      maxRetryAfter, longest := 0, 0;
      for i := 0 to |pending|
        invariant IsLongest(target, pending[..i], cooldown, now, maxRetryAfter, longest)
      {
        var retryAfter := RetryAfter(target, pending[i], cooldown, now);
        LongestNext(target, pending, i, cooldown, now, maxRetryAfter, longest, retryAfter);
        if retryAfter > maxRetryAfter {
          maxRetryAfter, longest := retryAfter, i;
        }
      }
      assert pending[..|pending|] == pending;
    }

    /** No equivalent request blocks for longer than `wait`; one blocks for as long, unless `wait` is zero. */
    static ghost predicate IsLongest(target: string, pending: seq<LeaseRequest>, cooldown: int, now: int, wait: int, longest: int) {
      && wait >= 0
      && (forall k | 0 <= k < |pending| && RequestKey(pending[k]) == target :: BlocksFor(pending[k], cooldown, now) <= wait)
      && (wait > 0 ==>
            && 0 <= longest < |pending| && RequestKey(pending[longest]) == target
            && BlocksFor(pending[longest], cooldown, now) == wait)
    }

    static lemma LongestNext(target: string, pending: seq<LeaseRequest>, i: nat, cooldown: int, now: int, wait: int, longest: int,
                             next: int)
      requires i < |pending| && IsLongest(target, pending[..i], cooldown, now, wait, longest)
      requires WaitsFor(target, pending[i], cooldown, now, next)
      ensures IsLongest(target, pending[..i + 1], cooldown, now, if next > wait then next else wait, if next > wait then i else longest)
    {
      assert pending[..i + 1] == pending[..i] + [pending[i]];
    }

    /** What `r` contributes: the time for which it blocks, or zero. */
    static predicate WaitsFor(target: string, r: LeaseRequest, cooldown: int, now: int, wait: int) {
      && wait >= 0
      && (RequestKey(r) == target ==> BlocksFor(r, cooldown, now) <= wait)
      && (wait > 0 ==> RequestKey(r) == target && BlocksFor(r, cooldown, now) == wait)
    }

    /** The body of that loop; zero where the source goes on to the next request. */
    static method RetryAfter(target: string, r: LeaseRequest, cooldown: int, now: int) returns (wait: int)
      ensures WaitsFor(target, r, cooldown, now, wait)
    {
      if RequestKey(r) != target {
        return 0;
      }
      var elapsed := now - r.createdAt;
      if elapsed < 0 {
        elapsed := 0;
      }
      return if elapsed >= cooldown then 0 else cooldown - elapsed;
    }

    /** A non-critical event: a failure is reported but leaves the gate open. */
    method WriteAuditEvent(event: AuditEvent) returns (ok: bool)
      requires !event.ChangesRequests()
      modifies gate.sink
      ensures ok ==> gate.sink.log == old(gate.sink.log) + [event]
      ensures !ok ==> gate.sink.log == old(gate.sink.log)
                      || (!gate.sink.clean && gate.sink.log == old(gate.sink.log) + [event])
    {
      ok := gate.sink.Write(event);
    }

    method RequestLeaseWithPolicy(c: Call) returns (out: Outcome)
      requires Valid() && c.Submit? && c.newID !in requests
      modifies this`requests, this`leases, this`disk, gate, gate.sink, gate.clock
      ensures Valid()
      ensures SubmitStep(cfg, old(Observed()), c, out, Observed())
    {
      ghost var pre := Observed();
      if !cfg.policy.ValidateRequest(c.ttl, c.secrets) {
        return Refused(InvalidRequest);
      }
      var policy := cfg.throttle.Effective();
      var input := SubmitInput(c);
      if policy.enableActiveLeaseReuse && TrimSpace(c.envPath) == "" {
        var found := FindEquivalentActiveLease(input);
        if found.Some? {
          ghost var mid := Observed();
          out := ReuseLease(c, found.value);
          LeaseReused(cfg, pre, mid, c, found.value, out, Observed());
          return;
        }
      }
      out := RequestUnlessThrottled(c, policy, pre);
    }

    method ReuseLease(c: Call, lease: Lease) returns (out: Outcome)
      requires Valid() && c.Submit?
      modifies gate.sink, gate.clock
      ensures out in {Reused(lease), Refused(AuditWriteFailed)}
      ensures out.Reused? ==>
        exists at :: Logs(old(Observed()), Observed(), PolicyEvent(RequestReusedActiveLease, at, c, lease.requestID, lease.token))
      ensures out.Refused? ==>
        PolicyEventFails(cfg, old(Observed()), Observed(), RequestReusedActiveLease, c)
    {
      var now := gate.clock.Now();
      var ok := WriteAuditEvent(PolicyEvent(RequestReusedActiveLease, now, c, lease.requestID, lease.token));
      return if ok then Reused(lease) else Refused(AuditWriteFailed);
    }

    /** Refuses on the pending cap or the cooldown, with an event saying so. */
    method Throttle(c: Call, why: ThrottleReason, wait: int) returns (out: Outcome)
      requires Valid() && c.Submit?
      modifies gate.sink, gate.clock
      ensures Throttles(cfg, old(Observed()), c, why, wait, out, Observed())
    {
      var now := gate.clock.Now();
      var ok := WriteAuditEvent(PolicyEvent(ThrottleKind(why), now, c, "", ""));
      return if ok then Refused(Throttled(why, ReportedWait(wait))) else Refused(AuditWriteFailed);
    }

    /** The rest of the policy path, after the look for a reusable lease has moved only the clock. */
    method RequestUnlessThrottled(c: Call, policy: RequestPolicy.Throttle, ghost pre: View) returns (out: Outcome)
      requires Valid() && c.Submit? && c.newID !in requests
      requires cfg.policy.ValidateRequest(c.ttl, c.secrets) && policy == cfg.throttle.Effective()
      requires Observed() == pre.(clock := gate.clock.time) && pre.clock <= gate.clock.time
      requires PassesReuse(cfg, pre, c, gate.clock.time)
      modifies this`requests, this`leases, this`disk, gate, gate.sink, gate.clock
      ensures Valid()
      ensures SubmitStep(cfg, pre, c, out, Observed())
    {
      var pending := ListPendingRequests();
      var count := CountPendingRequestsForAgent(c.agentID, pending);
      if count >= policy.maxPendingPerAgent {
        ghost var mid := Observed();
        out := Throttle(c, PendingCap, policy.identicalRequestCooldown);
        ThrottlesSince(cfg, pre, mid, c, PendingCap, policy.identicalRequestCooldown, out, Observed());
        ThrottledAtCap(cfg, pre, c, mid.clock, out, Observed());
        return;
      }
      out := RequestUnlessCoolingDown(c, policy, pending, pre);
    }

    /** The rest of that, for an agent below its cap. */
    method RequestUnlessCoolingDown(c: Call, policy: RequestPolicy.Throttle, pending: seq<LeaseRequest>, ghost pre: View)
      returns (out: Outcome)
      requires Valid() && c.Submit? && c.newID !in requests && ListsPending(Memory(), pending)
      requires cfg.policy.ValidateRequest(c.ttl, c.secrets) && policy == cfg.throttle.Effective()
      requires Observed() == pre.(clock := gate.clock.time) && pre.clock <= gate.clock.time
      requires !AtCap(cfg, pre.mem, c)
      requires PassesReuse(cfg, pre, c, gate.clock.time)
      modifies this`requests, this`leases, this`disk, gate, gate.sink, gate.clock
      ensures Valid()
      ensures SubmitStep(cfg, pre, c, out, Observed())
    {
      var wait, throttled := EquivalentRequestCooldown(SubmitInput(c), pending, policy.identicalRequestCooldown);
      ghost var mid, now := Observed(), gate.clock.time;
      if throttled {
        out := Throttle(c, Cooldown, wait);
        ThrottlesSince(cfg, pre, mid, c, Cooldown, wait, out, Observed());
        ThrottledByCooldown(cfg, pre, c, now, wait, out, Observed());
        return;
      }
      out := RequestLeaseUnlocked(c);
      CreatedPastThrottle(cfg, pre, now, c, out, Observed());
    }

    // Release of secrets

    method AccessSecretForLease(lease: Lease, secretName: string, commandFingerprint: string, workdirFingerprint: string,
                                backend: map<string, string>)
      returns (r: Result<string, Refusal>)
      modifies gate, gate.sink, gate.clock
      ensures Idle(old(Observed()), Observed())
      ensures r.Ok? ==>
        && !gate.closed == !old(gate.closed)
        && MayUse(lease, "", commandFingerprint, workdirFingerprint)
        && secretName in backend && r.value == backend[secretName]
        && ReleasesSecret(old(Observed()), Observed(), lease, secretName)
      ensures r.Err? ==> Declines(old(Observed()), Observed(), r.error)
      ensures r.Err? ==>
        LeaseRefusal(old(Observed()), Observed(), lease, "", commandFingerprint, workdirFingerprint, {secretName}, backend, r.error)
      ensures AllEarned(old(gate.sink.log), gate.sink.log, lease, {secretName}, old(gate.clock.time))
      ensures EachOnce(old(gate.sink.log), gate.sink.log)
      ensures !MayUse(lease, "", commandFingerprint, workdirFingerprint) ==> gate.sink.log == old(gate.sink.log)
    {
      var now := gate.clock.Now();
      if lease.IsExpired(now) {
        return Err(LeaseExpired);
      }
      if !lease.Allows(secretName) {
        return Err(SecretNotAllowed);
      }
      if lease.commandFingerprint != "" && lease.commandFingerprint != commandFingerprint {
        return Err(FingerprintMismatch);
      }
      if lease.workdirFingerprint != "" && lease.workdirFingerprint != workdirFingerprint {
        return Err(FingerprintMismatch);
      }
      r := GetSecretAudited(lease, secretName, backend, now);
      EarnedSince(old(gate.sink.log), gate.sink.log, lease, {secretName}, old(gate.clock.time), now);
    }

    /** The last part of `accessSecretForLease`: the start, the value, the completion. */
    method GetSecretAudited(lease: Lease, secretName: string, backend: map<string, string>, ghost now: int)
      returns (r: Result<string, Refusal>)
      requires now <= gate.clock.time && !lease.IsExpired(now) && lease.Allows(secretName)
      modifies gate, gate.sink, gate.clock
      ensures Idle(old(Observed()), Observed())
      ensures r.Ok? ==>
        && gate.closed == old(gate.closed)
        && secretName in backend && r.value == backend[secretName]
        && AccessLogged(old(gate.sink.log), gate.sink.log, lease, secretName, now)
      ensures r.Err? ==> Declines(old(Observed()), Observed(), r.error)
      ensures r.Err? ==>
        || (r.error.SecretBackendUnavailable? && secretName !in backend && EndsInFailure(gate.sink.log, lease, secretName))
        || (r.error.AuditUnavailable? && gate.closed)
      ensures AllEarned(old(gate.sink.log), gate.sink.log, lease, {secretName}, now)
      ensures EachOnce(old(gate.sink.log), gate.sink.log)
    {
      ghost var log := gate.sink.log;
      var started := gate.clock.Now();
      var ok := gate.AuditCritical(SecretEvent(SecretAccessStarted, started, lease, secretName));
      ghost var mid := gate.sink.log;
      OneEvent(log, mid, SecretEvent(SecretAccessStarted, started, lease, secretName), lease, secretName, now);
      if !ok {
        return Err(AuditUnavailable(false));
      }
      var done := gate.clock.Now();
      if secretName !in backend {
        var _ := WriteAuditEvent(SecretEvent(SecretBackendError, done, lease, secretName));
        return Err(SecretBackendUnavailable);
      }
      ok := gate.AuditCritical(SecretEvent(SecretAccess, done, lease, secretName));
      OneEvent(mid, gate.sink.log, SecretEvent(SecretAccess, done, lease, secretName), lease, secretName, now);
      AllEarnedAppend(log, mid, gate.sink.log, lease, {secretName}, now);
      if !ok {
        return Err(AuditUnavailable(false));
      }
      LoggedPair(log, gate.sink.log, lease, secretName, now, started, done);
      return Ok(backend[secretName]);
    }

    method RejectPlaintextSecretAccess() returns (refusal: Option<Refusal>)
      modifies gate, gate.sink, gate.clock
      ensures Idle(old(Observed()), Observed())
      ensures cfg.allowPlaintext ==> refusal.None? && Observed() == old(Observed())
      ensures !cfg.allowPlaintext ==>
        && refusal.Some? && Declines(old(Observed()), Observed(), refusal.value)
        && Silently(old(gate.sink.log), gate.sink.log)
        && (|| (&& refusal.value.PlaintextDisabled?
                && exists at :: Logs(old(Observed()), Observed(), SystemEvent(PlaintextSecretAccessBlocked, at)))
            || (refusal.value.AuditUnavailable? && gate.closed))
    {
      if cfg.allowPlaintext {
        return None;
      }
      var now := gate.clock.Now();
      var ok := gate.AuditCritical(SystemEvent(PlaintextSecretAccessBlocked, now));
      return Some(if ok then PlaintextDisabled else AuditUnavailable(false));
    }

    method AccessSecretByAgent(c: Call) returns (out: Outcome)
      requires c.Access?
      modifies gate, gate.sink, gate.clock
      ensures AccessStep(cfg, old(Observed()), c, out, Observed())
    {
      var rejected := RejectPlaintextSecretAccess();
      if rejected.Some? {
        return Refused(rejected.value);
      }
      if c.leaseToken !in leases {
        return Refused(NotFound);
      }
      var lease := leases[c.leaseToken];
      if c.caller != "" && lease.agentID != c.caller {
        return Refused(NotOwned);
      }
      var r := AccessSecretForLease(lease, c.secret, c.cmdFingerprint, c.wdFingerprint, c.backend);
      return if r.Ok? then Released(map[c.secret := r.value]) else Refused(r.error);
    }

    static method NormalizeExecutionSecretNames(secretNames: seq<string>) returns (out: seq<string>)
      ensures out == Distinct(secretNames)
    {
      var seen: set<string> := {};
      out := [];
      for i := 0 to |secretNames|
        invariant out == Distinct(secretNames[..i])
        invariant forall n :: n in seen <==> n in out
      {
        assert secretNames[..i + 1][..i] == secretNames[..i];
        var trimmed := TrimSpace(secretNames[i]);
        if trimmed == "" || trimmed in seen {
          continue;
        }
        seen := seen + {trimmed};
        out := out + [trimmed];
      }
      assert secretNames[..|secretNames|] == secretNames;
    }

    method ResolveExecutionSecretsByAgent(c: Call) returns (out: Outcome)
      requires c.Resolve? && Admissible(Observed(), c)
      modifies gate, gate.sink, gate.clock
      ensures ResolveStep(cfg, old(Observed()), c, out, Observed())
    {
      ghost var pre := Observed();
      var requested := NormalizeExecutionSecretNames(c.names);
      DistinctNames(c.names);
      assert requested != [] ==> requested[0] in Elements(requested);
      if requested == [] {
        return Refused(SecretsRequired);
      }
      if c.leaseToken !in leases {
        return Refused(NotFound);
      }
      var lease := leases[c.leaseToken];
      var refusal, now := CheckExecutionLease(c, lease, requested);
      if refusal.Some? {
        return Refused(refusal.value);
      }
      ghost var mid := Observed();
      out := ResolveForRequest(c, lease, requested, now);
      ForRequestResolves(cfg, pre, mid, c, lease, requested, now, out, Observed());
    }

    method CheckExecutionLease(c: Call, lease: Lease, requested: seq<string>) returns (refusal: Option<Refusal>, now: int)
      requires c.Resolve?
      modifies gate.clock
      ensures old(gate.clock.time) <= now == gate.clock.time || refusal.Some?
      ensures old(gate.clock.time) <= gate.clock.time
      ensures refusal.Some? ==>
        && LeaseRefusal(old(Observed()), Observed(), lease, c.caller, c.cmdFingerprint, c.wdFingerprint, Elements(requested),
                        c.backend, refusal.value)
        && !refusal.value.SecretBackendUnavailable?
      ensures refusal.None? ==>
        && MayUse(lease, c.caller, c.cmdFingerprint, c.wdFingerprint)
        && !lease.IsExpired(now)
        && forall n | n in requested :: lease.Allows(n)
    {
      now := 0;
      if c.caller != "" && lease.agentID != c.caller {
        return Some(NotOwned), now;
      }
      now := gate.clock.Now();
      if lease.IsExpired(now) {
        return Some(LeaseExpired), now;
      }
      if lease.commandFingerprint != "" && lease.commandFingerprint != c.cmdFingerprint {
        return Some(FingerprintMismatch), now;
      }
      if lease.workdirFingerprint != "" && lease.workdirFingerprint != c.wdFingerprint {
        return Some(FingerprintMismatch), now;
      }
      var allowed := AllowsAll(lease, requested);
      return if allowed then None else Some(SecretNotAllowed), now;
    }

    method ResolveForRequest(c: Call, lease: Lease, requested: seq<string>, now: int) returns (out: Outcome)
      requires c.Resolve? && Admissible(Observed(), c)
      requires requested != [] && Elements(requested) == Names(c.names)
      requires now <= gate.clock.time && !lease.IsExpired(now)
      requires NoRepeats(requested) && forall n | n in requested :: lease.Allows(n)
      modifies gate, gate.sink, gate.clock
      ensures ForRequest(old(Observed()), c, lease, requested, now, out, Observed())
      ensures AllEarned(old(gate.sink.log), gate.sink.log, lease, Elements(requested), now)
      ensures EachOnce(old(gate.sink.log), gate.sink.log)
    {
      if lease.requestID !in requests {
        return Refused(NotFound);
      }
      var request := requests[lease.requestID];
      if c.caller != "" && request.agentID != c.caller {
        return Refused(NotOwned);
      }
      if !request.status.Approved? {
        return Refused(NotApproved);
      }
      var r;
      if TrimSpace(request.envPath) == "" {
        r := ResolveStoreSecrets(lease, requested, c.cmdFingerprint, c.wdFingerprint, c.backend, now);
      } else {
        ghost var log, atRead := gate.sink.log, gate.sink.log;
        r, atRead := ResolveEnvPathExecutionSecrets(request, lease, requested, c.approvedNow, c.envFile, now);
        LoggedAroundIsLogged(log, atRead, gate.sink.log, lease, requested, now);
      }
      return if r.Ok? then Released(r.value) else Refused(r.error);
    }

    static method AllowsAll(lease: Lease, requested: seq<string>) returns (all: bool)
      ensures all <==> forall n | n in requested :: lease.Allows(n)
    {
      for i := 0 to |requested|
        invariant forall k | 0 <= k < i :: lease.Allows(requested[k])
      {
        if !lease.Allows(requested[i]) {
          return false;
        }
      }
      return true;
    }

    method ResolveStoreSecrets(lease: Lease, requested: seq<string>, commandFingerprint: string, workdirFingerprint: string,
                               backend: map<string, string>, ghost now: int)
      returns (r: Result<map<string, string>, Refusal>)
      requires NoRepeats(requested) && now <= gate.clock.time
      modifies gate, gate.sink, gate.clock
      ensures Idle(old(Observed()), Observed())
      ensures r.Ok? ==>
        && gate.closed == old(gate.closed)
        && r.value.Keys == Elements(requested)
        && (forall n | n in r.value :: n in backend && r.value[n] == backend[n])
        && AllReleased(old(Observed()), Observed(), lease, Elements(requested))
      ensures r.Err? ==> Declines(old(Observed()), Observed(), r.error)
      ensures r.Err? ==>
        LeaseRefusal(old(Observed()), Observed(), lease, "", commandFingerprint, workdirFingerprint, Elements(requested), backend, r.error)
      ensures AllEarned(old(gate.sink.log), gate.sink.log, lease, Elements(requested), now)
      ensures EachOnce(old(gate.sink.log), gate.sink.log)
    {
      ghost var pre := Observed();
      var values: map<string, string> := map[];
      for i := 0 to |requested|
        invariant Idle(pre, Observed()) && gate.closed == old(gate.closed)
        invariant values.Keys == Elements(requested[..i]) && forall n | n in values :: n in backend && values[n] == backend[n]
        invariant AllReleased(pre, Observed(), lease, Elements(requested[..i]))
        invariant AllEarned(pre.log, gate.sink.log, lease, Elements(requested[..i]), now)
        invariant EachOnce(pre.log, gate.sink.log)
      {
        ghost var mid := Observed();
        NextName(requested, i);
        var value := AccessSecretForLease(lease, requested[i], commandFingerprint, workdirFingerprint, backend);
        EarnedNext(pre.log, mid.log, gate.sink.log, lease, requested, i, now, mid.clock);
        if value.Err? {
          RefusalLater(pre, mid, Observed(), lease, commandFingerprint, workdirFingerprint, requested, i, backend, value.error);
          EarnedAmong(pre.log, gate.sink.log, lease, requested, i + 1, now);
          return Err(value.error);
        }
        AllReleasedNext(pre, mid, Observed(), lease, Elements(requested[..i]), requested[i]);
        values := values[requested[i] := value.value];
      }
      assert requested[..|requested|] == requested;
      return Ok(values);
    }

    method ResolveEnvPathExecutionSecrets(request: LeaseRequest, lease: Lease, requested: seq<string>,
                                          approvedNow: string, envFile: Option<(map<string, string>, string)>, now: int)
      returns (r: Result<map<string, string>, Refusal>, ghost atRead: seq<AuditEvent>)
      requires now <= gate.clock.time && !lease.IsExpired(now)
      requires NoRepeats(requested) && forall n | n in requested :: lease.Allows(n)
      modifies gate, gate.sink, gate.clock
      ensures Idle(old(Observed()), Observed())
      ensures r.Ok? ==>
        && gate.closed == old(gate.closed)
        && envFile == Some((r.value, approvedNow)) && approvedNow != ""
        && old(gate.sink.log) <= atRead <= gate.sink.log
        && EnvPathTold(old(gate.sink.log), gate.sink.log, request, EnvPathConfirmed)
        && forall n | n in requested :: LoggedAround(old(gate.sink.log), atRead, gate.sink.log, lease, n, now)
      ensures r.Err? ==> Declines(old(Observed()), Observed(), r.error)
      ensures r.Err? ==>
        || (r.error.AuditUnavailable? && gate.closed)
        || (&& EnvPathTold(old(gate.sink.log), gate.sink.log, request, EnvPathRejected)
            && (|| (r.error.SecretBackendUnavailable? && envFile.None?)
                || (r.error.EnvPathMismatch?
                    && (approvedNow == "" || (envFile.Some? && envFile.value.1 != approvedNow)))))
      ensures AllEarned(old(gate.sink.log), gate.sink.log, lease, Elements(requested), now)
      ensures EachOnce(old(gate.sink.log), gate.sink.log)
    {
      atRead := gate.sink.log;
      if approvedNow == "" {
        AuditEnvPath(EnvPathRejected, request);
        r := Err(EnvPathMismatch);
        return;
      }
      ghost var log := gate.sink.log;
      var ok := AuditStarted(lease, requested, now);
      atRead := gate.sink.log;
      if !ok {
        r := Err(AuditUnavailable(false));
        return;
      }
      r := ReleaseEnvFile(request, lease, requested, approvedNow, envFile, now, log, atRead);
      EarnedInTurn(log, atRead, gate.sink.log, lease, Elements(requested), now);
      if r.Ok? {
        NoEnvPathThen(log, atRead, gate.sink.log, request, EnvPathConfirmed);
      } else if !r.error.AuditUnavailable? {
        NoEnvPathThen(log, atRead, gate.sink.log, request, EnvPathRejected);
      }
    }

    /** The rest of `resolveEnvPathExecutionSecrets`, once all starts are logged. */
    method ReleaseEnvFile(request: LeaseRequest, lease: Lease, requested: seq<string>, approvedNow: string,
                          envFile: Option<(map<string, string>, string)>, now: int,
                          ghost log: seq<AuditEvent>, ghost atRead: seq<AuditEvent>)
      returns (r: Result<map<string, string>, Refusal>)
      requires now <= gate.clock.time && !lease.IsExpired(now) && approvedNow != ""
      requires NoRepeats(requested) && forall n | n in requested :: lease.Allows(n)
      requires log <= atRead == gate.sink.log
      requires forall n | n in requested :: StartLogged(log, atRead, lease, n, now, gate.clock.time)
      modifies gate, gate.sink, gate.clock
      ensures Idle(old(Observed()), Observed())
      ensures r.Ok? ==>
        && gate.closed == old(gate.closed) && envFile == Some((r.value, approvedNow))
        && EnvPathTold(old(gate.sink.log), gate.sink.log, request, EnvPathConfirmed)
        && forall n | n in requested :: LoggedAround(log, atRead, gate.sink.log, lease, n, now)
      ensures r.Err? ==> Declines(old(Observed()), Observed(), r.error)
      ensures r.Err? ==>
        || (r.error.AuditUnavailable? && gate.closed)
        || (&& EnvPathTold(old(gate.sink.log), gate.sink.log, request, EnvPathRejected)
            && (|| (r.error.SecretBackendUnavailable? && envFile.None?)
                || (r.error.EnvPathMismatch? && envFile.Some? && envFile.value.1 != approvedNow)))
      ensures AllEarned(old(gate.sink.log), gate.sink.log, lease, Elements(requested), now)
      ensures EachOnce(old(gate.sink.log), gate.sink.log) && OnlyTells(old(gate.sink.log), gate.sink.log, SecretAccess)
    {
      if envFile.None? {
        AuditEnvPath(EnvPathRejected, request);
        return Err(SecretBackendUnavailable);
      }
      var (resolved, resolvedCanonical) := envFile.value;
      if resolvedCanonical == "" || resolvedCanonical != approvedNow {
        AuditEnvPath(EnvPathRejected, request);
        return Err(EnvPathMismatch);
      }
      AuditEnvPath(EnvPathConfirmed, request);
      ghost var mid := gate.sink.log;
      var ok := AuditAccessed(lease, requested, now, log, atRead);
      EarnedAfterQuiet(atRead, mid, gate.sink.log, lease, Elements(requested), now);
      EnvPathThenNone(atRead, mid, gate.sink.log, request, EnvPathConfirmed);
      r := if ok then Ok(resolved) else Err(AuditUnavailable(false));
    }

    method AuditStarted(lease: Lease, requested: seq<string>, now: int) returns (ok: bool)
      requires now <= gate.clock.time && !lease.IsExpired(now)
      requires NoRepeats(requested) && forall n | n in requested :: lease.Allows(n)
      modifies gate, gate.sink, gate.clock
      ensures Idle(old(Observed()), Observed())
      ensures ok ==> gate.closed == old(gate.closed)
      ensures ok ==> forall n | n in requested :: StartLogged(old(gate.sink.log), gate.sink.log, lease, n, now, gate.clock.time)
      ensures !ok ==> gate.closed
      ensures AllEarned(old(gate.sink.log), gate.sink.log, lease, Elements(requested), now)
      ensures EachOnce(old(gate.sink.log), gate.sink.log) && OnlyTells(old(gate.sink.log), gate.sink.log, SecretAccessStarted)
      ensures NoEnvPath(old(gate.sink.log), gate.sink.log)
    {
      ghost var log := gate.sink.log;
      for i := 0 to |requested|
        invariant Idle(old(Observed()), Observed()) && gate.closed == old(gate.closed)
        invariant forall n | n in requested[..i] :: StartLogged(log, gate.sink.log, lease, n, now, gate.clock.time)
        invariant AllEarned(log, gate.sink.log, lease, Elements(requested[..i]), now)
        invariant EachOnce(log, gate.sink.log) && OnlyTells(log, gate.sink.log, SecretAccessStarted) && NoEnvPath(log, gate.sink.log)
      {
        ghost var mid := gate.sink.log;
        var at := gate.clock.Now();
        ok := gate.AuditCritical(SecretEvent(SecretAccessStarted, at, lease, requested[i]));
        OneEvent(mid, gate.sink.log, SecretEvent(SecretAccessStarted, at, lease, requested[i]), lease, requested[i], now);
        EarnedNext(log, mid, gate.sink.log, lease, requested, i, now, now);
        if !ok {
          EarnedAmong(log, gate.sink.log, lease, requested, i + 1, now);
          return;
        }
        assert gate.sink.log[|mid|] == SecretEvent(SecretAccessStarted, at, lease, requested[i]);
        StartLoggedLonger(log, mid, gate.sink.log, lease, requested[..i], now, old(gate.clock.time), gate.clock.time);
        assert requested[..i + 1] == requested[..i] + [requested[i]];
      }
      assert requested[..|requested|] == requested;
      return true;
    }

    method AuditAccessed(lease: Lease, requested: seq<string>, now: int, ghost log: seq<AuditEvent>, ghost atRead: seq<AuditEvent>)
      returns (ok: bool)
      requires now <= gate.clock.time && !lease.IsExpired(now)
      requires NoRepeats(requested) && forall n | n in requested :: lease.Allows(n)
      requires log <= atRead <= gate.sink.log
      requires forall n | n in requested :: StartLogged(log, atRead, lease, n, now, gate.clock.time)
      modifies gate, gate.sink, gate.clock
      ensures Idle(old(Observed()), Observed())
      ensures ok ==> gate.closed == old(gate.closed)
      ensures ok ==> forall n | n in requested :: LoggedAround(log, atRead, gate.sink.log, lease, n, now)
      ensures !ok ==> gate.closed
      ensures AllEarned(old(gate.sink.log), gate.sink.log, lease, Elements(requested), now)
      ensures EachOnce(old(gate.sink.log), gate.sink.log) && OnlyTells(old(gate.sink.log), gate.sink.log, SecretAccess)
      ensures NoEnvPath(old(gate.sink.log), gate.sink.log)
    {
      ghost var before := gate.sink.log;
      for i := 0 to |requested|
        invariant Idle(old(Observed()), Observed()) && gate.closed == old(gate.closed)
        invariant forall n | n in requested[..i] :: LoggedAround(log, atRead, gate.sink.log, lease, n, now)
        invariant AllEarned(before, gate.sink.log, lease, Elements(requested[..i]), now)
        invariant EachOnce(before, gate.sink.log) && OnlyTells(before, gate.sink.log, SecretAccess) && NoEnvPath(before, gate.sink.log)
      {
        ghost var mid := gate.sink.log;
        var at := gate.clock.Now();
        ok := gate.AuditCritical(SecretEvent(SecretAccess, at, lease, requested[i]));
        OneEvent(mid, gate.sink.log, SecretEvent(SecretAccess, at, lease, requested[i]), lease, requested[i], now);
        EarnedNext(before, mid, gate.sink.log, lease, requested, i, now, now);
        if !ok {
          EarnedAmong(before, gate.sink.log, lease, requested, i + 1, now);
          return;
        }
        StartThenAccess(log, atRead, mid, gate.sink.log, lease, requested[i], now, old(gate.clock.time), at);
        LoggedAroundLonger(log, atRead, mid, gate.sink.log, lease, requested[..i], now);
        assert requested[..i + 1] == requested[..i] + [requested[i]];
      }
      assert requested[..|requested|] == requested;
      return true;
    }

    /** Scans the leases in no particular order; `BrokerTheorems.LeaseOfRequestUnique` says why that does not matter. */
    method GetLeaseByRequestID(requestID: string) returns (found: Option<Lease>)
      requires Valid()
      ensures found.Some? ==> found.value.token in leases && leases[found.value.token] == found.value
      ensures found.Some? ==> found.value.requestID == requestID
      ensures found.None? ==> forall tok | tok in leases :: leases[tok].requestID != requestID
    {
      var todo := leases.Keys;
      while todo != {}
        invariant todo <= leases.Keys
        invariant forall tok | tok in leases && tok !in todo :: leases[tok].requestID != requestID
        decreases todo
      {
        var tok :| tok in todo;
        todo := todo - {tok};
        if leases[tok].requestID == requestID {
          return Some(leases[tok]);
        }
      }
      return None;
    }

    /** A handler: every call is refused once the durability gate is closed. */
    method Handle(c: Call) returns (out: Outcome)
      requires Valid() && Admissible(Observed(), c)
      modifies this`requests, this`leases, this`disk, gate, gate.sink, gate.clock
      ensures Valid()
      ensures Step(cfg, old(Observed()), c, out, Observed())
    {
      if gate.closed {
        return Refused(DurabilityClosed);
      }
      match c
      case Submit(_, _, _, _, _, _, _, _, _, _, _) => out := RequestLeaseWithPolicy(c);
      case Approve(_, _, _) => out := ApproveRequestWithActorUnlocked(c);
      case Deny(id) => out := DenyRequestWithActorUnlocked(id);
      case Cancel(id, agent) => out := CancelRequestByAgentUnlocked(id, agent);
      case Access(_, _, _, _, _, _) => out := AccessSecretByAgent(c);
      case Resolve(_, _, _, _, _, _, _, _) => out := ResolveExecutionSecretsByAgent(c);
    }

    /** Best effort: a failure to log is ignored. */
    method AuditEnvPath(kind: EventKind, r: LeaseRequest)
      requires kind.EnvPathConfirmed? || kind.EnvPathRejected?
      modifies gate.sink, gate.clock
      ensures
        || gate.sink.log == old(gate.sink.log)
        || exists at | old(gate.clock.time) <= at <= gate.clock.time ::
             gate.sink.log == old(gate.sink.log) + [EnvPathEvent(kind, at, r)]
      ensures old(gate.clock.time) <= gate.clock.time
    {
      var now := gate.clock.Now();
      var _ := gate.sink.Write(EnvPathEvent(kind, now, r));
    }
  }

  lemma UndoApprove(w: World, c: Call, approved: int)
    requires c.Approve? && c.requestID in w.requests && c.newToken !in w.leases && WellKeyed(w)
    ensures CompensateAll(ApprovedWorld(w, c, approved), [DeleteLease(c.newToken), RestoreRequest(w.requests[c.requestID])]) == (w, true)
  {
    var cs := [DeleteLease(c.newToken), RestoreRequest(w.requests[c.requestID])];
    var w' := ApprovedWorld(w, c, approved);
    assert cs[..1] == [cs[0]] && cs[..1][..0] == [];
    assert CompensateAll(w', cs[..1]) == Compensate(w', cs[0]);
    assert w'.leases - {c.newToken} == w.leases;
    assert w'.requests[c.requestID := w.requests[c.requestID]] == w.requests;
  }

  lemma UndoDecision(w: World, id: string, status: RequestStatus)
    requires id in w.requests && WellKeyed(w)
    ensures CompensateAll(WithDecision(w, id, status), [RestoreRequest(w.requests[id])]) == (w, true)
  {
    assert [RestoreRequest(w.requests[id])][..0] == [];
    assert WithDecision(w, id, status).requests[id := w.requests[id]] == w.requests;
  }

  lemma CountedAll(w: World, agent: string, pending: seq<LeaseRequest>, counted: set<string>)
    requires ListsPending(w, pending)
    requires forall r | r in pending && BelongsTo(r, agent) :: r.id in counted
    requires forall id | id in counted :: exists k | 0 <= k < |pending| :: pending[k].id == id && BelongsTo(pending[k], agent)
    requires WellKeyed(w)
    ensures counted == PendingOf(w, agent)
  {
  }

  /** The two events of a completed access are the only ones added to the log. */
  lemma LoggedPair(log: seq<AuditEvent>, log': seq<AuditEvent>, l: Lease, secret: string, now: int, started: int, done: int)
    requires now <= started <= done
    requires log' == log + [SecretEvent(SecretAccessStarted, started, l, secret)] + [SecretEvent(SecretAccess, done, l, secret)]
    ensures AccessLogged(log, log', l, secret, now)
  {
    assert log'[|log|] == SecretEvent(SecretAccessStarted, started, l, secret);
    assert log'[|log| + 1] == SecretEvent(SecretAccess, done, l, secret);
  }

  /** The outcome of resolving secrets once the lease itself has passed its checks at `now`. */
  ghost predicate ForRequest(pre: View, c: Call, l: Lease, requested: seq<string>, now: int, out: Outcome, post: View)
    requires c.Resolve?
  {
    match out
    case Released(values) =>
      && IdleOpen(pre, post)
      && l.requestID in pre.mem.requests
      && var r := pre.mem.requests[l.requestID];
      && r.status.Approved? && (c.caller != "" ==> r.agentID == c.caller)
      && values.Keys == Elements(requested)
      && (if TrimSpace(r.envPath) == ""
          then
            && (forall n | n in values :: n in c.backend && values[n] == c.backend[n])
            && forall n | n in values :: ReleasesSecret(pre, post, l, n)
          else
            && c.envFile == Some((values, c.approvedNow)) && c.approvedNow != ""
            && EnvPathTold(pre.log, post.log, r, EnvPathConfirmed)
            && forall n | n in values :: AccessLogged(pre.log, post.log, l, n, now))
    case Refused(because) =>
      && Declines(pre, post, because)
      && (|| (&& LeaseRefusal(pre, post, l, "", c.cmdFingerprint, c.wdFingerprint, Elements(requested), c.backend, because)
              && (because.SecretBackendUnavailable? ==>
                    l.requestID in pre.mem.requests && TrimSpace(pre.mem.requests[l.requestID].envPath) == ""))
          || RequestRefusal(pre, post, c, l.requestID, because))
    case _ => false
  }

  lemma ForRequestResolves(cfg: Config, pre: View, mid: View, c: Call, l: Lease, requested: seq<string>, now: int,
                           out: Outcome, post: View)
    requires c.Resolve? && requested != [] && Elements(requested) == Names(c.names)
    requires mid == pre.(clock := mid.clock) && pre.clock <= now <= mid.clock
    requires c.leaseToken in pre.mem.leases && pre.mem.leases[c.leaseToken] == l
    requires MayUse(l, c.caller, c.cmdFingerprint, c.wdFingerprint) && !l.IsExpired(now)
    requires forall n | n in requested :: l.Allows(n)
    requires ForRequest(mid, c, l, requested, now, out, post)
    requires AllEarned(mid.log, post.log, l, Elements(requested), now) && EachOnce(mid.log, post.log)
    ensures ResolveStep(cfg, pre, c, out, post)
  {
    assert requested[0] in Elements(requested);
    EarnedSince(pre.log, post.log, l, Elements(requested), pre.clock, now);
    if out.Released? {
      forall n | n in out.values ensures ReleasesSecret(pre, post, l, n) {
        assert n in Elements(requested);
        if TrimSpace(pre.mem.requests[l.requestID].envPath) == "" {
          ReleasesLater(pre, mid, post, l, n);
        } else {
          assert AccessLogged(pre.log, post.log, l, n, now);
        }
      }
    }
  }

  /** The start of an access is logged beyond `log`, with a timestamp from `now` to `until`. */
  ghost predicate StartLogged(log: seq<AuditEvent>, log': seq<AuditEvent>, l: Lease, secret: string, now: int, until: int) {
    exists i, at | |log| <= i < |log'| && now <= at <= until :: log'[i] == SecretEvent(SecretAccessStarted, at, l, secret)
  }

  lemma StartLoggedLonger(log: seq<AuditEvent>, mid: seq<AuditEvent>, log': seq<AuditEvent>, l: Lease, names: seq<string>,
                          now: int, until: int, until': int)
    requires mid <= log'
    ensures until <= until' ==> forall n | n in names && StartLogged(log, mid, l, n, now, until) ::
              StartLogged(log, log', l, n, now, until')
    ensures forall n | n in names && StartLogged(log, mid, l, n, now, until') :: StartLogged(log, log', l, n, now, until')
  {
  }

  lemma StartThenAccess(log: seq<AuditEvent>, start: seq<AuditEvent>, mid: seq<AuditEvent>, log': seq<AuditEvent>, l: Lease,
                        secret: string, now: int, until: int, done: int)
    requires StartLogged(log, start, l, secret, now, until) && until <= done
    requires start <= mid && log' == mid + [SecretEvent(SecretAccess, done, l, secret)]
    ensures LoggedAround(log, start, log', l, secret, now)
  {
    var i, at :| |log| <= i < |start| && now <= at <= until && start[i] == SecretEvent(SecretAccessStarted, at, l, secret);
    assert log'[i] == SecretEvent(SecretAccessStarted, at, l, secret);
    assert log'[|mid|] == SecretEvent(SecretAccess, done, l, secret);
  }

  /** The start of the access was logged before the log was `atRead`, and the completion after that. */
  ghost predicate LoggedAround(log: seq<AuditEvent>, atRead: seq<AuditEvent>, log': seq<AuditEvent>, l: Lease, secret: string, now: int) {
    exists i, j, at, done | |log| <= i < |atRead| <= j < |log'| && now <= at <= done ::
      && log'[i] == SecretEvent(SecretAccessStarted, at, l, secret)
      && log'[j] == SecretEvent(SecretAccess, done, l, secret)
  }

  lemma LoggedAroundLonger(log: seq<AuditEvent>, atRead: seq<AuditEvent>, mid: seq<AuditEvent>, log': seq<AuditEvent>, l: Lease,
                           names: seq<string>, now: int)
    requires mid <= log'
    ensures forall n | n in names && LoggedAround(log, atRead, mid, l, n, now) :: LoggedAround(log, atRead, log', l, n, now)
  {
  }

  lemma LoggedAroundIsLogged(log: seq<AuditEvent>, atRead: seq<AuditEvent>, log': seq<AuditEvent>, l: Lease, names: seq<string>, now: int)
    ensures forall n | n in names && LoggedAround(log, atRead, log', l, n, now) :: AccessLogged(log, log', l, n, now)
  {
  }

  lemma ReleasesLater(pre: View, mid: View, post: View, l: Lease, secret: string)
    requires Idle(pre, mid) && ReleasesSecret(mid, post, l, secret)
    ensures ReleasesSecret(pre, post, l, secret)
  {
  }

  lemma ReleasesLonger(pre: View, mid: View, post: View, l: Lease, secret: string)
    requires ReleasesSecret(pre, mid, l, secret) && Idle(mid, post)
    ensures ReleasesSecret(pre, post, l, secret)
  {
  }

  ghost predicate AllReleased(pre: View, post: View, l: Lease, names: set<string>) {
    forall n | n in names :: ReleasesSecret(pre, post, l, n)
  }

  lemma AllReleasedLonger(pre: View, mid: View, post: View, l: Lease, names: set<string>)
    requires AllReleased(pre, mid, l, names) && Idle(mid, post)
    ensures AllReleased(pre, post, l, names)
  {
    forall n | n in names ensures ReleasesSecret(pre, post, l, n) {
      ReleasesLonger(pre, mid, post, l, n);
    }
  }

  lemma AllReleasedNext(pre: View, mid: View, post: View, l: Lease, names: set<string>, next: string)
    requires AllReleased(pre, mid, l, names) && Idle(pre, mid) && Idle(mid, post) && ReleasesSecret(mid, post, l, next)
    ensures AllReleased(pre, post, l, names + {next})
  {
    AllReleasedLonger(pre, mid, post, l, names);
    ReleasesLater(pre, mid, post, l, next);
  }

  lemma RefusalLater(pre: View, mid: View, post: View, l: Lease, commandFingerprint: string, workdirFingerprint: string,
                     requested: seq<string>, i: nat, backend: map<string, string>, because: Refusal)
    requires i < |requested| && pre.clock <= mid.clock
    requires LeaseRefusal(mid, post, l, "", commandFingerprint, workdirFingerprint, {requested[i]}, backend, because)
    ensures LeaseRefusal(pre, post, l, "", commandFingerprint, workdirFingerprint, Elements(requested), backend, because)
  {
  }

  // What is logged about accesses

  ghost predicate NoEnvPath(log: seq<AuditEvent>, log': seq<AuditEvent>) {
    forall i | |log| <= i < |log'| :: !log'[i].TellsOfEnvPath()
  }

  lemma NoEnvPathThen(log: seq<AuditEvent>, mid: seq<AuditEvent>, log': seq<AuditEvent>, r: LeaseRequest, kind: EventKind)
    requires log <= mid <= log' && NoEnvPath(log, mid) && EnvPathTold(mid, log', r, kind)
    ensures EnvPathTold(log, log', r, kind)
  {
  }

  lemma EnvPathThenNone(log: seq<AuditEvent>, mid: seq<AuditEvent>, log': seq<AuditEvent>, r: LeaseRequest, kind: EventKind)
    requires log <= mid <= log' && EnvPathTold(log, mid, r, kind) && NoEnvPath(mid, log')
    ensures EnvPathTold(log, log', r, kind)
  {
  }

  /** Accesses are told of by events of one kind only. */
  ghost predicate OnlyTells(log: seq<AuditEvent>, log': seq<AuditEvent>, kind: EventKind) {
    forall i | |log| <= i < |log'| && log'[i].TellsOfAccess() :: log'[i].kind == kind
  }

  lemma OneEvent(log: seq<AuditEvent>, log': seq<AuditEvent>, e: AuditEvent, l: Lease, secret: string, since: int)
    requires log' == log || log' == log + [e]
    requires e == SecretEvent(e.kind, e.timestamp, l, secret) && since <= e.timestamp
    requires !l.IsExpired(since) && l.Allows(secret)
    ensures AllEarned(log, log', l, {secret}, since) && EachOnce(log, log') && OnlyTells(log, log', e.kind)
  {
  }

  lemma EarnedInTurn(log: seq<AuditEvent>, atRead: seq<AuditEvent>, log': seq<AuditEvent>, l: Lease, asked: set<string>, now: int)
    requires log <= atRead <= log'
    requires AllEarned(log, atRead, l, asked, now) && EachOnce(log, atRead) && OnlyTells(log, atRead, SecretAccessStarted)
    requires AllEarned(atRead, log', l, asked, now) && EachOnce(atRead, log') && OnlyTells(atRead, log', SecretAccess)
    ensures AllEarned(log, log', l, asked, now) && EachOnce(log, log')
  {
  }

  lemma EarnedAfterQuiet(log: seq<AuditEvent>, mid: seq<AuditEvent>, log': seq<AuditEvent>, l: Lease, asked: set<string>, now: int)
    requires Silently(log, mid) && mid <= log'
    requires AllEarned(mid, log', l, asked, now) && EachOnce(mid, log') && OnlyTells(mid, log', SecretAccess)
    ensures AllEarned(log, log', l, asked, now) && EachOnce(log, log') && OnlyTells(log, log', SecretAccess)
  {
  }

  lemma AllEarnedAppend(log: seq<AuditEvent>, mid: seq<AuditEvent>, log': seq<AuditEvent>, l: Lease, asked: set<string>, since: int)
    requires log <= mid <= log'
    requires AllEarned(log, mid, l, asked, since) && AllEarned(mid, log', l, asked, since)
    ensures AllEarned(log, log', l, asked, since)
  {
  }

  lemma EarnedSince(log: seq<AuditEvent>, log': seq<AuditEvent>, l: Lease, asked: set<string>, since: int, now: int)
    requires since <= now && AllEarned(log, log', l, asked, now)
    ensures AllEarned(log, log', l, asked, since)
  {
  }

  lemma EarnedNext(log: seq<AuditEvent>, mid: seq<AuditEvent>, log': seq<AuditEvent>, l: Lease, names: seq<string>, i: nat,
                   since: int, now: int)
    requires log <= mid <= log' && i < |names| && NoRepeats(names) && since <= now
    requires AllEarned(log, mid, l, Elements(names[..i]), since) && EachOnce(log, mid)
    requires AllEarned(mid, log', l, {names[i]}, now) && EachOnce(mid, log')
    ensures AllEarned(log, log', l, Elements(names[..i + 1]), since) && EachOnce(log, log')
  {
    assert names[..i + 1] == names[..i] + [names[i]];
    assert names[i] !in Elements(names[..i]);
  }

  lemma NextName(names: seq<string>, i: nat)
    requires i < |names|
    ensures Elements(names[..i + 1]) == Elements(names[..i]) + {names[i]}
  {
    assert names[..i + 1] == names[..i] + [names[i]];
  }

  lemma EarnedAmong(log: seq<AuditEvent>, log': seq<AuditEvent>, l: Lease, names: seq<string>, n: nat, since: int)
    requires n <= |names| && AllEarned(log, log', l, Elements(names[..n]), since)
    ensures AllEarned(log, log', l, Elements(names), since)
  {
  }

  lemma NoneListed(w: World, key: string, now: int, listed: seq<Lease>)
    requires forall tok | tok in w.leases :: w.leases[tok] in listed
    ensures (forall l | l in listed :: !ActiveWithKey(l, key, now)) ==> NoneReusable(w, key, now)
  {
  }

  lemma LongestWait(w: World, key: string, cooldown: int, now: int, pending: seq<LeaseRequest>, wait: int, longest: int)
    requires ListsPending(w, pending)
    requires Service.IsLongest(key, pending, cooldown, now, wait, longest)
    ensures wait > 0 ==> IsRetryAfter(w, key, cooldown, now, wait)
    ensures wait <= 0 ==> !CoolingDown(w, key, cooldown, now)
  {
  }

  lemma LogsSince(pre: View, mid: View, post: View, e: AuditEvent)
    requires mid == pre.(clock := mid.clock) && pre.clock <= mid.clock && Logs(mid, post, e)
    ensures Logs(pre, post, e)
  {
  }

  lemma PolicyEventFailsSince(cfg: Config, pre: View, mid: View, post: View, kind: EventKind, c: Call)
    requires c.Submit? && mid == pre.(clock := mid.clock) && pre.clock <= mid.clock && PolicyEventFails(cfg, mid, post, kind, c)
    ensures PolicyEventFails(cfg, pre, post, kind, c)
  {
    if !Untouched(mid, post) {
      var at, id, token :| Logs(mid, post, PolicyEvent(kind, at, c, id, token));
      LogsSince(pre, mid, post, PolicyEvent(kind, at, c, id, token));
    }
  }

  lemma LeaseReused(cfg: Config, pre: View, mid: View, c: Call, l: Lease, out: Outcome, post: View)
    requires c.Submit? && cfg.policy.ValidateRequest(c.ttl, c.secrets) && MayReuse(cfg, c)
    requires mid == pre.(clock := mid.clock) && pre.clock <= mid.clock
    requires Reusable(pre.mem, EquivalenceKey(SubmitInput(c)), mid.clock, l.token) && pre.mem.leases[l.token] == l
    requires out in {Reused(l), Refused(AuditWriteFailed)}
    requires out.Reused? ==> exists at :: Logs(mid, post, PolicyEvent(RequestReusedActiveLease, at, c, l.requestID, l.token))
    requires out.Refused? ==> PolicyEventFails(cfg, mid, post, RequestReusedActiveLease, c)
    ensures SubmitStep(cfg, pre, c, out, post)
  {
    if out.Reused? {
      var at :| Logs(mid, post, PolicyEvent(RequestReusedActiveLease, at, c, l.requestID, l.token));
      LogsSince(pre, mid, post, PolicyEvent(RequestReusedActiveLease, at, c, l.requestID, l.token));
    } else {
      PolicyEventFailsSince(cfg, pre, mid, post, RequestReusedActiveLease, c);
      assert mid.clock <= post.clock;
    }
  }

  /** The request was throttled, or the event that says so could not be written. */
  ghost predicate Throttles(cfg: Config, mid: View, c: Call, why: ThrottleReason, wait: int, out: Outcome, post: View)
    requires c.Submit?
  {
    || (out == Refused(Throttled(why, ReportedWait(wait)))
        && exists at :: Logs(mid, post, PolicyEvent(ThrottleKind(why), at, c, "", "")))
    || (out == Refused(AuditWriteFailed) && PolicyEventFails(cfg, mid, post, ThrottleKind(why), c))
  }

  lemma ThrottlesSince(cfg: Config, pre: View, mid: View, c: Call, why: ThrottleReason, wait: int, out: Outcome, post: View)
    requires c.Submit? && mid == pre.(clock := mid.clock) && pre.clock <= mid.clock
    requires Throttles(cfg, mid, c, why, wait, out, post)
    ensures Throttles(cfg, pre, c, why, wait, out, post) && mid.clock <= post.clock
  {
    if out.because.Throttled? {
      var at :| Logs(mid, post, PolicyEvent(ThrottleKind(why), at, c, "", ""));
      LogsSince(pre, mid, post, PolicyEvent(ThrottleKind(why), at, c, "", ""));
    } else {
      PolicyEventFailsSince(cfg, pre, mid, post, ThrottleKind(why), c);
    }
  }

  lemma ThrottledAtCap(cfg: Config, pre: View, c: Call, now: int, out: Outcome, post: View)
    requires c.Submit? && cfg.policy.ValidateRequest(c.ttl, c.secrets) && now <= post.clock
    requires PassesReuse(cfg, pre, c, now) && AtCap(cfg, pre.mem, c)
    requires Throttles(cfg, pre, c, PendingCap, cfg.throttle.Effective().identicalRequestCooldown, out, post)
    ensures SubmitStep(cfg, pre, c, out, post)
  {
    assert PassesReuse(cfg, pre, c, post.clock);
  }

  lemma ThrottledByCooldown(cfg: Config, pre: View, c: Call, now: int, wait: int, out: Outcome, post: View)
    requires c.Submit? && cfg.policy.ValidateRequest(c.ttl, c.secrets)
    requires pre.clock <= now <= post.clock && PassesReuse(cfg, pre, c, now) && !AtCap(cfg, pre.mem, c)
    requires IsRetryAfter(pre.mem, EquivalenceKey(SubmitInput(c)), cfg.throttle.Effective().identicalRequestCooldown, now, wait)
    requires Throttles(cfg, pre, c, Cooldown, wait, out, post)
    ensures SubmitStep(cfg, pre, c, out, post)
  {
    assert PassesReuse(cfg, pre, c, post.clock);
    if out.because.AuditWriteFailed? {
      WaitIsCooldown(pre.mem, EquivalenceKey(SubmitInput(c)), cfg.throttle.Effective().identicalRequestCooldown, now, wait);
    }
  }

  lemma WaitIsCooldown(w: World, key: string, cooldown: int, now: int, wait: int)
    requires IsRetryAfter(w, key, cooldown, now, wait)
    ensures CoolingDown(w, key, cooldown, now)
  {
    var id :| PendingEquivalent(w, key, id) && BlocksFor(w.requests[id], cooldown, now) == wait;
  }

  lemma CreatedPastThrottle(cfg: Config, pre: View, now: int, c: Call, out: Outcome, post: View)
    requires c.Submit? && cfg.policy.ValidateRequest(c.ttl, c.secrets) && pre.clock <= now <= post.clock
    requires PassesThrottle(cfg, pre, c, now)
    requires CreateStep(cfg, pre.(clock := now), c, out, post)
    ensures SubmitStep(cfg, pre, c, out, post)
  {
    CreateStepLater(cfg, pre, now, c, out, post);
  }

  lemma CreateStepLater(cfg: Config, pre: View, now: int, c: Call, out: Outcome, post: View)
    requires c.Submit? && pre.clock <= now
    requires CreateStep(cfg, pre.(clock := now), c, out, post)
    ensures CreateStep(cfg, pre, c, out, post)
    ensures out.Created? ==> now <= out.request.createdAt
  {
  }

  lemma UndoCreate(w: World, r: LeaseRequest)
    requires r.id !in w.requests
    ensures CompensateAll(WithRequest(w, r), [DeleteRequest(r.id)]) == (w, true)
  {
    assert WithRequest(w, r).requests - {r.id} == w.requests;
    assert [DeleteRequest(r.id)][..0] == [];
  }
}
