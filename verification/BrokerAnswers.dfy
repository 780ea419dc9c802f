/**
 What the answers of the broker say, in the fields of calls, requests, leases and audit events alone:
 the meaning that callers and auditors rely on, with none of the helpers by which it is computed.
 */
module BrokerAnswers {
  import opened Prelude
  import opened Text
  import opened Time
  import opened Domain
  import opened RequestPolicy
  import opened Durability
  import opened Broker
  import opened BrokerRuns

  // Submit

  /** The request asks for the same as one that is stored, part by part. */
  predicate AsksTheSame(c: Call, r: LeaseRequest)
    requires c.Submit?
  {
    Equivalent(Input(c.agentID, c.intent, c.secrets, c.commandFingerprint, c.workdirFingerprint),
               Input(r.agentID, r.intent, r.secrets, r.commandFingerprint, r.workdirFingerprint))
  }

  /** The request asks for what a lease gives, part by part. */
  predicate AsksForLease(c: Call, l: Lease)
    requires c.Submit?
  {
    Equivalent(Input(c.agentID, c.intent, c.secrets, c.commandFingerprint, c.workdirFingerprint),
               Input(l.agentID, l.intent, l.secrets, l.commandFingerprint, l.workdirFingerprint))
  }

  lemma SameMeansSameKey(a: Input, b: Input)
    requires Equivalent(a, b)
    ensures EquivalenceKey(a) == EquivalenceKey(b)
  {
    NormalizedSecretsEqual(a.secrets, b.secrets);
  }

  lemma SubmitKey(c: Call)
    requires c.Submit?
    ensures
      EquivalenceKey(SubmitInput(c))
      == EquivalenceKey(Input(c.agentID, c.intent, c.secrets, c.commandFingerprint, c.workdirFingerprint))
  {
    TrimSpaceIsTrimmed(c.intent);
  }

  /** While a cooldown is set, it lasts for that long after the creation of each equivalent pending request. */
  lemma CoolingDownIff(w: World, key: string, cooldown: int, now: int)
    requires cooldown > 0
    ensures CoolingDown(w, key, cooldown, now) <==>
      exists id | id in w.requests ::
        && w.requests[id].status.Pending? && RequestKey(w.requests[id]) == key
        && now < w.requests[id].createdAt + cooldown
  {
    if CoolingDown(w, key, cooldown, now) {
      var id :| PendingEquivalent(w, key, id) && BlocksFor(w.requests[id], cooldown, now) > 0;
      assert now < w.requests[id].createdAt + cooldown;
    }
    forall id | PendingEquivalent(w, key, id) && now < w.requests[id].createdAt + cooldown ensures CoolingDown(w, key, cooldown, now) {
      assert BlocksFor(w.requests[id], cooldown, now) > 0;
    }
  }

  lemma NotCoolingDown(w: World, c: Call, cooldown: int, now: int, id: string)
    requires c.Submit? && cooldown > 0 && !CoolingDown(w, EquivalenceKey(SubmitInput(c)), cooldown, now)
    requires id in w.requests && w.requests[id].status.Pending? && AsksTheSame(c, w.requests[id])
    ensures w.requests[id].createdAt + cooldown <= now
  {
    SubmitKey(c);
    SameMeansSameKey(Input(c.agentID, c.intent, c.secrets, c.commandFingerprint, c.workdirFingerprint), RequestInput(w.requests[id]));
    CoolingDownIff(w, EquivalenceKey(SubmitInput(c)), cooldown, now);
  }

  lemma NotReusable(w: World, c: Call, now: int, tok: string)
    requires c.Submit? && NoneReusable(w, EquivalenceKey(SubmitInput(c)), now)
    requires tok in w.leases && AsksForLease(c, w.leases[tok])
    ensures w.leases[tok].expiresAt <= now
  {
    SubmitKey(c);
    SameMeansSameKey(Input(c.agentID, c.intent, c.secrets, c.commandFingerprint, c.workdirFingerprint), LeaseInput(w.leases[tok]));
    assert !Reusable(w, EquivalenceKey(SubmitInput(c)), now, tok);
  }

  lemma PendingOfAgent(w: World, agent: string)
    ensures PendingOf(w, agent)
         == set id | id in w.requests && w.requests[id].status.Pending? && TrimSpace(w.requests[id].agentID) == agent
  {
  }

  /**
   A created request is what was asked for, is within the policy, and comes when its agent has room for
   one more pending request, every equivalent pending request is at least the cooldown old, and no
   equivalent lease is there to be handed out again. It is the only change, and its event the only one.
   */
  lemma CreatedMeans(cfg: Config, pre: View, c: Call, r: LeaseRequest, post: View)
    requires Next(cfg, pre, Handled(c, Created(r)), post)
    ensures c.Submit? && pre.gateOpen && c.newID !in pre.mem.requests
    ensures
      r == LeaseRequest(c.newID, c.agentID, c.taskID, TrimSpace(c.intent), c.reason, c.ttl, c.secrets,
                        c.commandFingerprint, c.workdirFingerprint, TrimSpace(c.envPath), r.envPathCanonical, Pending, r.createdAt)
    ensures if TrimSpace(c.envPath) == "" then r.envPathCanonical == "" else c.canonical.Some? && r.envPathCanonical == c.canonical.value
    ensures post.mem == World(pre.mem.requests[c.newID := r], pre.mem.leases) && pre.clock <= r.createdAt
    ensures
      exists at | r.createdAt <= at <= post.clock ::
        post.log == pre.log + [AuditEvent(RequestCreated, at, c.agentID, c.taskID, c.newID, "", "")]
    ensures cfg.policy.minTTLMinutes <= c.ttl <= cfg.policy.maxTTLMinutes && 0 < |c.secrets| <= cfg.policy.maxSecretsPerReq
    ensures forall s | s in c.secrets :: ValidateSecretName(s)
    ensures
      |set id | id in pre.mem.requests && pre.mem.requests[id].status.Pending?
                && TrimSpace(pre.mem.requests[id].agentID) == TrimSpace(c.agentID)|
      < cfg.throttle.Effective().maxPendingPerAgent
    ensures forall id | id in pre.mem.requests && pre.mem.requests[id].status.Pending? && AsksTheSame(c, pre.mem.requests[id]) ::
      pre.mem.requests[id].createdAt + cfg.throttle.Effective().identicalRequestCooldown <= r.createdAt
    ensures cfg.throttle.Effective().enableActiveLeaseReuse && TrimSpace(c.envPath) == "" ==>
      forall tok | tok in pre.mem.leases && AsksForLease(c, pre.mem.leases[tok]) :: pre.mem.leases[tok].expiresAt <= r.createdAt
  {
    PendingOfAgent(pre.mem, TrimSpace(c.agentID));
    CreatedPastPolicy(cfg, pre, c, r, post);
    CreatedLog(cfg, pre, c, r, post);
  }

  lemma CreatedLog(cfg: Config, pre: View, c: Call, r: LeaseRequest, post: View)
    requires c.Submit? && CreateStep(cfg, pre, c, Created(r), post)
    ensures
      exists at | r.createdAt <= at <= post.clock ::
        post.log == pre.log + [AuditEvent(RequestCreated, at, c.agentID, c.taskID, c.newID, "", "")]
  {
    var at :| r.createdAt <= at && Commits(cfg, pre, post, WithRequest(pre.mem, r), EventAbout(RequestCreated, at, r, ""));
    assert post.log[..|pre.log| + 1] == pre.log + [EventAbout(RequestCreated, at, r, "")] && |post.log| == |pre.log| + 1;
    assert post.log == pre.log + [AuditEvent(RequestCreated, at, c.agentID, c.taskID, c.newID, "", "")];
  }

  lemma CreatedPastPolicy(cfg: Config, pre: View, c: Call, r: LeaseRequest, post: View)
    requires c.Submit? && PassesThrottle(cfg, pre, c, r.createdAt)
    ensures |PendingOf(pre.mem, TrimSpace(c.agentID))| < cfg.throttle.Effective().maxPendingPerAgent
    ensures forall id | id in pre.mem.requests && pre.mem.requests[id].status.Pending? && AsksTheSame(c, pre.mem.requests[id]) ::
      pre.mem.requests[id].createdAt + cfg.throttle.Effective().identicalRequestCooldown <= r.createdAt
    ensures cfg.throttle.Effective().enableActiveLeaseReuse && TrimSpace(c.envPath) == "" ==>
      forall tok | tok in pre.mem.leases && AsksForLease(c, pre.mem.leases[tok]) :: pre.mem.leases[tok].expiresAt <= r.createdAt
  {
    var key, cooldown := EquivalenceKey(SubmitInput(c)), cfg.throttle.Effective().identicalRequestCooldown;
    var now :| pre.clock <= now <= r.createdAt && !CoolingDown(pre.mem, key, cooldown, now);
    forall id | id in pre.mem.requests && pre.mem.requests[id].status.Pending? && AsksTheSame(c, pre.mem.requests[id])
      ensures pre.mem.requests[id].createdAt + cooldown <= r.createdAt
    {
      NotCoolingDown(pre.mem, c, cooldown, now, id);
    }
    if cfg.throttle.Effective().enableActiveLeaseReuse && TrimSpace(c.envPath) == "" {
      LeasesExpired(cfg, pre, c, r.createdAt);
    }
  }

  lemma LeasesExpired(cfg: Config, pre: View, c: Call, until: int)
    requires c.Submit? && PassesReuse(cfg, pre, c, until)
    requires cfg.throttle.Effective().enableActiveLeaseReuse && TrimSpace(c.envPath) == ""
    ensures forall tok | tok in pre.mem.leases && AsksForLease(c, pre.mem.leases[tok]) :: pre.mem.leases[tok].expiresAt <= until
  {
    assert MayReuse(cfg, c);
    var now :| pre.clock <= now <= until && NoneReusable(pre.mem, EquivalenceKey(SubmitInput(c)), now);
    forall tok | tok in pre.mem.leases && AsksForLease(c, pre.mem.leases[tok]) ensures pre.mem.leases[tok].expiresAt <= until {
      NotReusable(pre.mem, c, now, tok);
    }
  }

  /**
   A lease handed out again: the same is asked for as far as keys tell, it is stored and unexpired at some
   moment of the call, and nothing happens but that this is logged.
   */
  lemma ReusedMeans(cfg: Config, pre: View, c: Call, l: Lease, post: View) returns (now: int, at: int)
    requires Next(cfg, pre, Handled(c, Reused(l)), post)
    ensures c.Submit? && pre.gateOpen
    ensures cfg.throttle.Effective().enableActiveLeaseReuse && TrimSpace(c.envPath) == ""
    ensures l.token in pre.mem.leases && pre.mem.leases[l.token] == l
    ensures pre.clock <= now <= post.clock && now < l.expiresAt
    ensures
      EquivalenceKey(Input(c.agentID, c.intent, c.secrets, c.commandFingerprint, c.workdirFingerprint))
      == EquivalenceKey(Input(l.agentID, l.intent, l.secrets, l.commandFingerprint, l.workdirFingerprint))
    ensures pre.clock <= at <= post.clock
    ensures
      post == pre.(
        clock := post.clock,
        log := pre.log + [AuditEvent(RequestReusedActiveLease, at, TrimSpace(c.agentID), TrimSpace(c.taskID), l.requestID, l.token, "")])
  {
    SubmitKey(c);
    now :| pre.clock <= now <= post.clock && Reusable(pre.mem, EquivalenceKey(SubmitInput(c)), now, l.token);
    at :| Logs(pre, post, PolicyEvent(RequestReusedActiveLease, at, c, l.requestID, l.token));
  }

  /** The request is outside the request policy, in its lifetime, in how many secrets it names, or in their names. */
  predicate OutsidePolicy(cfg: Config, ttl: int, secrets: seq<string>) {
    || !(cfg.policy.minTTLMinutes <= ttl <= cfg.policy.maxTTLMinutes)
    || !(0 < |secrets| <= cfg.policy.maxSecretsPerReq)
    || exists s | s in secrets :: !ValidateSecretName(s)
  }

  /** Refused for the number of pending requests of the agent: there is no room, and no lease to hand out again. */
  lemma CapMeans(cfg: Config, pre: View, c: Call, wait: int, post: View) returns (at: int)
    requires Next(cfg, pre, Handled(c, Refused(Throttled(PendingCap, wait))), post)
    ensures c.Submit? && pre.gateOpen && !OutsidePolicy(cfg, c.ttl, c.secrets)
    ensures
      |set id | id in pre.mem.requests && pre.mem.requests[id].status.Pending?
                && TrimSpace(pre.mem.requests[id].agentID) == TrimSpace(c.agentID)|
      >= cfg.throttle.Effective().maxPendingPerAgent
    ensures cfg.throttle.Effective().enableActiveLeaseReuse && TrimSpace(c.envPath) == "" ==>
      forall tok | tok in pre.mem.leases && AsksForLease(c, pre.mem.leases[tok]) :: pre.mem.leases[tok].expiresAt <= post.clock
    ensures
      var cooldown := cfg.throttle.Effective().identicalRequestCooldown;
      wait == if cooldown < SECOND then SECOND else cooldown
    ensures pre.clock <= at <= post.clock
    ensures
      post == pre.(
        clock := post.clock,
        log := pre.log + [AuditEvent(RequestThrottledPendingCap, at, TrimSpace(c.agentID), TrimSpace(c.taskID), "", "", "")])
  {
    PendingOfAgent(pre.mem, TrimSpace(c.agentID));
    if cfg.throttle.Effective().enableActiveLeaseReuse && TrimSpace(c.envPath) == "" {
      LeasesExpired(cfg, pre, c, post.clock);
    }
    at :| Logs(pre, post, PolicyEvent(RequestThrottledPendingCap, at, c, "", ""));
  }

  /**
   Refused for the cooldown, with nothing stored in the future: the latest equivalent pending request is
   younger than the cooldown, and the wait lasts until it is not, or for a second.
   */
  lemma CooldownMeans(cfg: Config, pre: View, c: Call, wait: int, post: View) returns (now: int, latest: string)
    requires Next(cfg, pre, Handled(c, Refused(Throttled(Cooldown, wait))), post)
    requires forall id | id in pre.mem.requests :: pre.mem.requests[id].createdAt <= pre.clock
    ensures c.Submit? && pre.gateOpen && pre.clock <= now <= post.clock
    ensures latest in pre.mem.requests && pre.mem.requests[latest].status.Pending?
    ensures
      var r := pre.mem.requests[latest];
      EquivalenceKey(Input(c.agentID, c.intent, c.secrets, c.commandFingerprint, c.workdirFingerprint))
      == EquivalenceKey(Input(r.agentID, r.intent, r.secrets, r.commandFingerprint, r.workdirFingerprint))
    ensures forall id | id in pre.mem.requests && pre.mem.requests[id].status.Pending? && AsksTheSame(c, pre.mem.requests[id]) ::
      pre.mem.requests[id].createdAt <= pre.mem.requests[latest].createdAt
    ensures
      var over := pre.mem.requests[latest].createdAt + cfg.throttle.Effective().identicalRequestCooldown;
      now < over && wait == if over - now < SECOND then SECOND else over - now
    ensures
      var key, cooldown := EquivalenceKey(SubmitInput(c)), cfg.throttle.Effective().identicalRequestCooldown;
      IsRetryAfter(pre.mem, key, cooldown, now, pre.mem.requests[latest].createdAt + cooldown - now)
  {
    now, latest := LatestEquivalent(cfg, pre, c, wait, post);
    SubmitKey(c);
  }

  /** It comes after the rest of the request policy: there is no lease to hand out again, and room for the agent. */
  lemma CooldownComesLast(cfg: Config, pre: View, c: Call, wait: int, post: View) returns (at: int)
    requires Next(cfg, pre, Handled(c, Refused(Throttled(Cooldown, wait))), post)
    ensures c.Submit? && !OutsidePolicy(cfg, c.ttl, c.secrets)
    ensures
      |set id | id in pre.mem.requests && pre.mem.requests[id].status.Pending?
                && TrimSpace(pre.mem.requests[id].agentID) == TrimSpace(c.agentID)|
      < cfg.throttle.Effective().maxPendingPerAgent
    ensures cfg.throttle.Effective().enableActiveLeaseReuse && TrimSpace(c.envPath) == "" ==>
      forall tok | tok in pre.mem.leases && AsksForLease(c, pre.mem.leases[tok]) :: pre.mem.leases[tok].expiresAt <= post.clock
    ensures pre.clock <= at <= post.clock
    ensures
      post == pre.(
        clock := post.clock,
        log := pre.log + [AuditEvent(RequestThrottledCooldown, at, TrimSpace(c.agentID), TrimSpace(c.taskID), "", "", "")])
  {
    PendingOfAgent(pre.mem, TrimSpace(c.agentID));
    if cfg.throttle.Effective().enableActiveLeaseReuse && TrimSpace(c.envPath) == "" {
      LeasesExpired(cfg, pre, c, post.clock);
    }
    at := CooldownLogged(cfg, pre, c, wait, post);
  }

  lemma CooldownLogged(cfg: Config, pre: View, c: Call, wait: int, post: View) returns (at: int)
    requires c.Submit? && PolicyStep(cfg, pre, c, Refused(Throttled(Cooldown, wait)), post)
    ensures pre.clock <= at <= post.clock
    ensures
      post == pre.(
        clock := post.clock,
        log := pre.log + [AuditEvent(RequestThrottledCooldown, at, TrimSpace(c.agentID), TrimSpace(c.taskID), "", "", "")])
  {
    at :| Logs(pre, post, PolicyEvent(RequestThrottledCooldown, at, c, "", ""));
  }

  lemma LatestEquivalent(cfg: Config, pre: View, c: Call, wait: int, post: View) returns (now: int, latest: string)
    requires c.Submit? && SubmitStep(cfg, pre, c, Refused(Throttled(Cooldown, wait)), post)
    requires forall id | id in pre.mem.requests :: pre.mem.requests[id].createdAt <= pre.clock
    ensures pre.clock <= now <= post.clock && PendingEquivalent(pre.mem, EquivalenceKey(SubmitInput(c)), latest)
    ensures forall id | id in pre.mem.requests && pre.mem.requests[id].status.Pending? && AsksTheSame(c, pre.mem.requests[id]) ::
      pre.mem.requests[id].createdAt <= pre.mem.requests[latest].createdAt
    ensures
      var over := pre.mem.requests[latest].createdAt + cfg.throttle.Effective().identicalRequestCooldown;
      now < over && wait == if over - now < SECOND then SECOND else over - now
    ensures
      var key, cooldown := EquivalenceKey(SubmitInput(c)), cfg.throttle.Effective().identicalRequestCooldown;
      IsRetryAfter(pre.mem, key, cooldown, now, pre.mem.requests[latest].createdAt + cooldown - now)
  {
    var key, cooldown := EquivalenceKey(SubmitInput(c)), cfg.throttle.Effective().identicalRequestCooldown;
    var exact;
    now, exact :| pre.clock <= now <= post.clock && IsRetryAfter(pre.mem, key, cooldown, now, exact) && wait == ReportedWait(exact);
    latest :| PendingEquivalent(pre.mem, key, latest) && BlocksFor(pre.mem.requests[latest], cooldown, now) == exact;
    SameIsNoLater(pre.mem, c, cooldown, now, exact, latest);
  }

  lemma SameIsNoLater(w: World, c: Call, cooldown: int, now: int, exact: int, latest: string)
    requires c.Submit? && IsRetryAfter(w, EquivalenceKey(SubmitInput(c)), cooldown, now, exact)
    requires latest in w.requests && BlocksFor(w.requests[latest], cooldown, now) == exact
    requires forall id | id in w.requests :: w.requests[id].createdAt <= now
    ensures forall id | id in w.requests && w.requests[id].status.Pending? && AsksTheSame(c, w.requests[id]) ::
      w.requests[id].createdAt <= w.requests[latest].createdAt
  {
    SubmitKey(c);
    forall id | id in w.requests && w.requests[id].status.Pending? && AsksTheSame(c, w.requests[id])
      ensures w.requests[id].createdAt <= w.requests[latest].createdAt
    {
      SameMeansSameKey(Input(c.agentID, c.intent, c.secrets, c.commandFingerprint, c.workdirFingerprint), RequestInput(w.requests[id]));
      assert PendingEquivalent(w, EquivalenceKey(SubmitInput(c)), id);
    }
  }

  /** All other refusals of a request. A closed gate, a bad request or a missing env file leave everything as it was. */
  lemma SubmitRefusedMeans(cfg: Config, pre: View, c: Call, because: Refusal, post: View)
    requires c.Submit? && Next(cfg, pre, Handled(c, Refused(because)), post)
    ensures because.DurabilityClosed? <==> !pre.gateOpen
    ensures because.InvalidRequest? <==> pre.gateOpen && OutsidePolicy(cfg, c.ttl, c.secrets)
    ensures because.EnvPathUnavailable? ==> TrimSpace(c.envPath) != "" && c.canonical.None?
    ensures because.DurabilityClosed? || because.InvalidRequest? || because.EnvPathUnavailable? ==> post == pre.(clock := post.clock)
    ensures because.CommitFailed? ==> cfg.persists
    ensures because.CommitFailed? || because.AuditUnavailable? ==> !post.gateOpen && post.mem == pre.mem
    ensures
      || because.DurabilityClosed? || because.InvalidRequest? || because.EnvPathUnavailable? || because.Throttled?
      || because.AuditWriteFailed? || because.CommitFailed? || because.AuditUnavailable?
  {
  }

  // Approve, deny and cancel

  /**
   A granted lease gives what the pending request asked for, for the minutes asked for, counted from an
   instant of the call. Request and lease are the only change; its event is followed at most by one on the
   env path of the request.
   */
  lemma GrantedMeans(cfg: Config, pre: View, c: Call, l: Lease, post: View) returns (approved: int, at: int)
    requires Next(cfg, pre, Handled(c, Granted(l)), post) && WellKeyed(pre.mem)
    ensures c.Approve? && pre.gateOpen && c.requestID in pre.mem.requests && c.newToken !in pre.mem.leases
    ensures pre.mem.requests[c.requestID].status.Pending?
    ensures
      var r := pre.mem.requests[c.requestID];
      && l == Lease(c.newToken, c.requestID, r.agentID, r.taskID, r.intent, r.secrets, r.commandFingerprint, r.workdirFingerprint,
                    approved + (if c.ttlMinutes != 0 then c.ttlMinutes else r.ttlMinutes) * MINUTE)
      && !OutsidePolicy(cfg, if c.ttlMinutes != 0 then c.ttlMinutes else r.ttlMinutes, r.secrets)
      && post.mem == World(pre.mem.requests[c.requestID := r.(status := Approved)], pre.mem.leases[c.newToken := l])
    ensures pre.clock <= approved <= at <= post.clock
    ensures
      var r := pre.mem.requests[c.requestID];
      && |pre.log| < |post.log| && pre.log <= post.log
      && post.log[|pre.log|] == AuditEvent(RequestApproved, at, r.agentID, r.taskID, c.requestID, c.newToken, "")
      && OnlyEnvPath(post.log[|pre.log| + 1..], r, EnvPathConfirmed)
  {
    approved, at := ApprovedAt(cfg, pre, c, l, post);
    GrantedWorld(pre.mem, c, approved);
    FirstNew(pre.log, EventAbout(RequestApproved, at, pre.mem.requests[c.requestID], c.newToken), post.log);
  }

  lemma GrantedWorld(w: World, c: Call, approved: int)
    requires c.Approve? && c.requestID in w.requests && WellKeyed(w)
    ensures
      var r := w.requests[c.requestID];
      var l := Lease(c.newToken, c.requestID, r.agentID, r.taskID, r.intent, r.secrets, r.commandFingerprint, r.workdirFingerprint,
                     approved + (if c.ttlMinutes != 0 then c.ttlMinutes else r.ttlMinutes) * MINUTE);
      && NewLease(r, c.newToken, approved + EffectiveTTL(r, c.ttlMinutes) * MINUTE) == l
      && ApprovedWorld(w, c, approved) == World(w.requests[c.requestID := r.(status := Approved)], w.leases[c.newToken := l])
  {
  }

  /** Nothing, or one event on the env path of the request, if it has one. */
  ghost predicate OnlyEnvPath(rest: seq<AuditEvent>, r: LeaseRequest, kind: EventKind) {
    || rest == []
    || (&& TrimSpace(r.envPath) != ""
        && exists at :: rest == [AuditEvent(kind, at, TrimSpace(r.agentID), TrimSpace(r.taskID), TrimSpace(r.id), "", "")])
  }

  lemma FirstNew(log: seq<AuditEvent>, e: AuditEvent, log': seq<AuditEvent>)
    requires Quietly(log + [e], log')
    ensures |log| < |log'| && log <= log' && log'[|log|] == e
    ensures forall r, kind | ThenEnvPath(log, log', r, kind) :: OnlyEnvPath(log'[|log| + 1..], r, kind)
  {
    assert log' == (log + [e]) + log'[|log| + 1..];
    forall r, kind | ThenEnvPath(log, log', r, kind) ensures OnlyEnvPath(log'[|log| + 1..], r, kind) {
      if |log'| == |log| + 2 {
        assert log'[|log| + 1..] == [log'[|log| + 1]];
      }
    }
  }

  lemma ApproveRefusedMeans(cfg: Config, pre: View, c: Call, because: Refusal, post: View)
    requires c.Approve? && Next(cfg, pre, Handled(c, Refused(because)), post)
    ensures because.DurabilityClosed? <==> !pre.gateOpen
    ensures because.NotFound? <==> pre.gateOpen && c.requestID !in pre.mem.requests
    ensures because.NotPending? <==>
      pre.gateOpen && c.requestID in pre.mem.requests && !pre.mem.requests[c.requestID].status.Pending?
    ensures because.InvalidRequest? <==>
      && pre.gateOpen && c.requestID in pre.mem.requests && pre.mem.requests[c.requestID].status.Pending?
      && var r := pre.mem.requests[c.requestID];
      OutsidePolicy(cfg, if c.ttlMinutes != 0 then c.ttlMinutes else r.ttlMinutes, r.secrets)
    ensures because.DurabilityClosed? || because.NotFound? || because.NotPending? || because.InvalidRequest? || because.CommitFailed?
      || because.AuditUnavailable?
    ensures
      if because.CommitFailed? || because.AuditUnavailable? then !post.gateOpen && post.mem == pre.mem
      else post == pre.(clock := post.clock)
    ensures because.CommitFailed? ==> cfg.persists
  {
  }

  /** Denied or cancelled: the pending request, of the caller if one is named, is denied, and no more. */
  lemma ClosedMeans(cfg: Config, pre: View, c: Call, r: LeaseRequest, post: View) returns (at: int)
    requires Next(cfg, pre, Handled(c, Closed(r)), post) && WellKeyed(pre.mem)
    ensures (c.Deny? || c.Cancel?) && pre.gateOpen && c.requestID in pre.mem.requests
    ensures
      var was := pre.mem.requests[c.requestID];
      && was.status.Pending? && (c.Cancel? && c.byAgent != "" ==> was.agentID == c.byAgent)
      && r == was.(status := Denied)
      && post.mem == World(pre.mem.requests[c.requestID := r], pre.mem.leases)
      && pre.clock <= at <= post.clock
      && |pre.log| < |post.log| && pre.log <= post.log
      && post.log[|pre.log|]
         == AuditEvent(if c.Deny? then RequestDenied else RequestCancelledByAgent, at, was.agentID, was.taskID, c.requestID, "", "")
      && (if c.Deny? then OnlyEnvPath(post.log[|pre.log| + 1..], was, EnvPathRejected) else |post.log| == |pre.log| + 1)
  {
    var was := pre.mem.requests[c.requestID];
    var kind := if c.Deny? then RequestDenied else RequestCancelledByAgent;
    at :| Commits(cfg, pre, post, WithDecision(pre.mem, c.requestID, Denied), EventAbout(kind, at, was, ""));
    FirstNew(pre.log, EventAbout(kind, at, was, ""), post.log);
  }

  lemma CloseRefusedMeans(cfg: Config, pre: View, c: Call, because: Refusal, post: View)
    requires c.Deny? || c.Cancel?
    requires Next(cfg, pre, Handled(c, Refused(because)), post)
    ensures because.DurabilityClosed? <==> !pre.gateOpen
    ensures because.NotFound? <==> pre.gateOpen && c.requestID !in pre.mem.requests
    ensures because.NotOwned? <==>
      && pre.gateOpen && c.requestID in pre.mem.requests
      && c.Cancel? && c.byAgent != "" && pre.mem.requests[c.requestID].agentID != c.byAgent
    ensures because.NotPending? ==> c.requestID in pre.mem.requests && !pre.mem.requests[c.requestID].status.Pending?
    ensures because.DurabilityClosed? || because.NotFound? || because.NotOwned? || because.NotPending? || because.CommitFailed?
      || because.AuditUnavailable?
    ensures
      if because.CommitFailed? || because.AuditUnavailable? then !post.gateOpen && post.mem == pre.mem
      else post == pre.(clock := post.clock)
    ensures because.CommitFailed? ==> cfg.persists
  {
  }

  // Release of secrets

  /** The start and the completion of an access are among the new events, in order and in every field. */
  ghost predicate Accessed(log: seq<AuditEvent>, log': seq<AuditEvent>, l: Lease, secret: string, i: int, j: int) {
    && |log| <= i < j < |log'|
    && log'[i] == AuditEvent(SecretAccessStarted, log'[i].timestamp, l.agentID, l.taskID, l.requestID, l.token, secret)
    && log'[j] == AuditEvent(SecretAccess, log'[j].timestamp, l.agentID, l.taskID, l.requestID, l.token, secret)
    && log'[i].timestamp <= log'[j].timestamp
  }

  lemma LoggedMeans(log: seq<AuditEvent>, log': seq<AuditEvent>, l: Lease, secret: string, now: int) returns (i: int, j: int)
    requires AccessLogged(log, log', l, secret, now)
    ensures Accessed(log, log', l, secret, i, j) && now <= log'[i].timestamp
  {
    var at, done;
    i, j, at, done :| |log| <= i < j < |log'| && now <= at <= done
      && log'[i] == SecretEvent(SecretAccessStarted, at, l, secret) && log'[j] == SecretEvent(SecretAccess, done, l, secret);
  }

  /** Any two new events about accesses differ: each access is logged once. */
  ghost predicate NothingTwice(log: seq<AuditEvent>, log': seq<AuditEvent>) {
    forall i, j | |log| <= i < j < |log'| && log'[i].kind in {SecretAccessStarted, SecretAccess} && log'[j].kind == log'[i].kind ::
      log'[i].secret != log'[j].secret
  }

  /** Who asks, from where, and for what is written in the lease, and it has not expired at `now`. */
  predicate LeaseCovers(l: Lease, caller: string, commandFingerprint: string, workdirFingerprint: string, secret: string, now: int) {
    && (caller != "" ==> l.agentID == caller)
    && (l.commandFingerprint != "" ==> l.commandFingerprint == commandFingerprint)
    && (l.workdirFingerprint != "" ==> l.workdirFingerprint == workdirFingerprint)
    && secret in l.secrets
    && now < l.expiresAt
  }

  /**
   A plaintext access that succeeds: it is allowed, covered by the lease at an instant of the call, hands
   out what the secret store answers, and its start and completion are logged after that instant, once.
   */
  lemma AccessMeans(cfg: Config, pre: View, c: Call, values: map<string, string>, post: View) returns (now: int, i: int, j: int)
    requires c.Access? && Next(cfg, pre, Handled(c, Released(values)), post)
    ensures pre.gateOpen && cfg.allowPlaintext && c.leaseToken in pre.mem.leases
    ensures c.secret in pre.secrets && values == map[c.secret := pre.secrets[c.secret]]
    ensures pre.clock <= now <= post.clock
    ensures
      var l := pre.mem.leases[c.leaseToken];
      && LeaseCovers(l, c.caller, c.cmdFingerprint, c.wdFingerprint, c.secret, now)
      && Accessed(pre.log, post.log, l, c.secret, i, j) && now <= post.log[i].timestamp
    ensures NothingTwice(pre.log, post.log)
    ensures post == pre.(log := post.log, clock := post.clock)
  {
    now, i, j := ReleaseCovered(pre, post, c, c.secret);
  }

  lemma ReleaseCovered(pre: View, post: View, c: Call, secret: string) returns (now: int, i: int, j: int)
    requires (c.Access? || c.Resolve?) && c.leaseToken in pre.mem.leases && AccessesEarned(pre, c, post)
    requires MayUse(pre.mem.leases[c.leaseToken], c.caller, c.cmdFingerprint, c.wdFingerprint)
    requires ReleasesSecret(pre, post, pre.mem.leases[c.leaseToken], secret)
    ensures pre.clock <= now <= post.clock
    ensures
      var l := pre.mem.leases[c.leaseToken];
      && LeaseCovers(l, c.caller, c.cmdFingerprint, c.wdFingerprint, secret, now)
      && Accessed(pre.log, post.log, l, secret, i, j) && now <= post.log[i].timestamp
    ensures NothingTwice(pre.log, post.log)
  {
    var l := pre.mem.leases[c.leaseToken];
    now :| pre.clock <= now <= post.clock && !l.IsExpired(now) && AccessLogged(pre.log, post.log, l, secret, now);
    i, j := LoggedMeans(pre.log, post.log, l, secret, now);
    ToldOnce(pre, c, post, i);
  }

  lemma ToldOnce(pre: View, c: Call, post: View, i: int)
    requires (c.Access? || c.Resolve?) && AccessesEarned(pre, c, post)
    requires |pre.log| <= i < |post.log| && post.log[i].kind.SecretAccessStarted?
    ensures NothingTwice(pre.log, post.log)
  {
    assert post.log[i].TellsOfAccess();
  }

  /**
   Secrets for an execution: all that were asked for, each covered and logged like that, under the approved
   request of the lease, and once.
   */
  lemma ResolveMeans(cfg: Config, pre: View, c: Call, values: map<string, string>, post: View, secret: string)
    returns (now: int, i: int, j: int)
    requires c.Resolve? && Next(cfg, pre, Handled(c, Released(values)), post) && secret in values
    ensures pre.gateOpen && c.leaseToken in pre.mem.leases
    ensures values.Keys == set n | n in c.names && TrimSpace(n) != "" :: TrimSpace(n)
    ensures pre.clock <= now <= post.clock
    ensures
      var l := pre.mem.leases[c.leaseToken];
      && LeaseCovers(l, c.caller, c.cmdFingerprint, c.wdFingerprint, secret, now)
      && Accessed(pre.log, post.log, l, secret, i, j) && now <= post.log[i].timestamp
      && l.requestID in pre.mem.requests && pre.mem.requests[l.requestID].status.Approved?
      && (c.caller != "" ==> pre.mem.requests[l.requestID].agentID == c.caller)
    ensures NothingTwice(pre.log, post.log)
    ensures post == pre.(log := post.log, clock := post.clock)
  {
    ResolvedUnderLease(cfg, pre, c, values, post, secret);
    now, i, j := ReleaseCovered(pre, post, c, secret);
  }

  /**
   They come from the secret store, or, if the request has an env path, from the file that it is read from,
   if that is the one that the approved path leads to; the path is then confirmed in the log, if anything.
   */
  lemma ResolvedFrom(cfg: Config, pre: View, c: Call, values: map<string, string>, post: View)
    requires c.Resolve? && Next(cfg, pre, Handled(c, Released(values)), post)
    ensures c.leaseToken in pre.mem.leases && pre.mem.leases[c.leaseToken].requestID in pre.mem.requests
    ensures
      var r := pre.mem.requests[pre.mem.leases[c.leaseToken].requestID];
      if TrimSpace(r.envPath) == "" then forall n | n in values :: n in pre.secrets && values[n] == pre.secrets[n]
      else
        && c.envFile == Some((values, c.approvedNow)) && c.approvedNow != ""
        && OnlyOfEnvPath(pre.log, post.log, r, EnvPathConfirmed)
  {
  }

  /** Any new event about an env path says that of the request `r`: confirmed, or rejected. */
  ghost predicate OnlyOfEnvPath(log: seq<AuditEvent>, log': seq<AuditEvent>, r: LeaseRequest, kind: EventKind) {
    forall i | |log| <= i < |log'| && log'[i].kind in {EnvPathConfirmed, EnvPathRejected} ::
      log'[i] == AuditEvent(kind, log'[i].timestamp, TrimSpace(r.agentID), TrimSpace(r.taskID), TrimSpace(r.id), "", "")
  }

  /** The start of the access is the last that was logged, or the last but a failure of the secret store. */
  ghost predicate FailedLast(log: seq<AuditEvent>, l: Lease, secret: string) {
    var n := |log|;
    || (n > 0 && log[n - 1]
        == AuditEvent(SecretAccessStarted, log[n - 1].timestamp, l.agentID, l.taskID, l.requestID, l.token, secret))
    || (&& n > 1
        && log[n - 2] == AuditEvent(SecretAccessStarted, log[n - 2].timestamp, l.agentID, l.taskID, l.requestID, l.token, secret)
        && log[n - 1] == AuditEvent(SecretBackendError, log[n - 1].timestamp, l.agentID, l.taskID, l.requestID, l.token, secret))
  }

  lemma ResolvedUnderLease(cfg: Config, pre: View, c: Call, values: map<string, string>, post: View, secret: string)
    requires c.Resolve? && ResolveStep(cfg, pre, c, Released(values), post) && secret in values
    ensures c.leaseToken in pre.mem.leases && AccessesEarned(pre, c, post)
    ensures MayUse(pre.mem.leases[c.leaseToken], c.caller, c.cmdFingerprint, c.wdFingerprint)
    ensures ReleasesSecret(pre, post, pre.mem.leases[c.leaseToken], secret)
  {
  }

  /** Why a lease that was found is turned away, whoever asks for whatever. */
  predicate LeaseTurnedAway(l: Lease, caller: string, commandFingerprint: string, workdirFingerprint: string, asked: set<string>,
                            until: int, because: Refusal)
  {
    match because
    case NotOwned => caller != "" && l.agentID != caller
    case LeaseExpired => l.expiresAt <= until
    case SecretNotAllowed => exists n | n in asked :: n !in l.secrets
    case FingerprintMismatch =>
      || (l.commandFingerprint != "" && l.commandFingerprint != commandFingerprint)
      || (l.workdirFingerprint != "" && l.workdirFingerprint != workdirFingerprint)
    case _ => false
  }

  /** The attempt at a plaintext access that is not allowed is logged, unless that fails and closes the gate. */
  lemma BlockedMeans(cfg: Config, pre: View, c: Call, because: Refusal, post: View) returns (at: int)
    requires c.Access? && pre.gateOpen && !cfg.allowPlaintext && Next(cfg, pre, Handled(c, Refused(because)), post)
    ensures because.PlaintextDisabled? || (because.AuditUnavailable? && !post.gateOpen)
    ensures because.PlaintextDisabled? ==>
      post == pre.(clock := post.clock, log := pre.log + [AuditEvent(PlaintextSecretAccessBlocked, at, "", "", "", "", "")])
  {
    at := pre.clock;
    if because.PlaintextDisabled? {
      at :| Logs(pre, post, SystemEvent(PlaintextSecretAccessBlocked, at));
    }
  }

  /** Every refused access names a reason that holds; no value and nothing in memory has moved. */
  lemma AccessRefusedMeans(cfg: Config, pre: View, c: Call, because: Refusal, post: View)
    requires c.Access? && Next(cfg, pre, Handled(c, Refused(because)), post)
    ensures post == pre.(gateOpen := post.gateOpen, log := post.log, clock := post.clock)
    ensures because.DurabilityClosed? <==> !pre.gateOpen
    ensures because.PlaintextDisabled? ==> !cfg.allowPlaintext
    ensures because.NotFound? <==> pre.gateOpen && cfg.allowPlaintext && c.leaseToken !in pre.mem.leases
    ensures because.SecretBackendUnavailable? ==>
      c.leaseToken in pre.mem.leases && c.secret !in c.backend && FailedLast(post.log, pre.mem.leases[c.leaseToken], c.secret)
    ensures because.AuditUnavailable? <==> pre.gateOpen && !post.gateOpen
    ensures
      || because.DurabilityClosed? || because.PlaintextDisabled? || because.NotFound? || because.AuditUnavailable?
      || because.SecretBackendUnavailable?
      || LeaseTurnedAway(pre.mem.leases[c.leaseToken], c.caller, c.cmdFingerprint, c.wdFingerprint, {c.secret}, post.clock, because)
  {
  }

  /** Likewise for an execution, where the request behind the lease and its env file may also stand in the way. */
  lemma ResolveRefusedMeans(cfg: Config, pre: View, c: Call, because: Refusal, post: View)
    requires c.Resolve? && Next(cfg, pre, Handled(c, Refused(because)), post)
    ensures post == pre.(gateOpen := post.gateOpen, log := post.log, clock := post.clock)
    ensures because.DurabilityClosed? <==> !pre.gateOpen
    ensures because.SecretsRequired? <==> pre.gateOpen && forall n | n in c.names :: TrimSpace(n) == ""
    ensures because.AuditUnavailable? <==> pre.gateOpen && !post.gateOpen
    ensures because.DurabilityClosed? || because.SecretsRequired? || because.AuditUnavailable? || because.NotFound?
      || (&& c.leaseToken in pre.mem.leases
          && var l := pre.mem.leases[c.leaseToken];
          || LeaseTurnedAway(l, c.caller, c.cmdFingerprint, c.wdFingerprint, Names(c.names), post.clock, because)
          || (l.requestID in pre.mem.requests && RequestTurnedAway(pre, post, l, pre.mem.requests[l.requestID], c, because)))
    ensures because.NotFound? ==>
      c.leaseToken in pre.mem.leases ==> pre.mem.leases[c.leaseToken].requestID !in pre.mem.requests
  {
    NoNames(c.names);
  }

  lemma NoNames(secrets: seq<string>)
    ensures Names(secrets) == {} <==> forall n | n in secrets :: TrimSpace(n) == ""
  {
    if Names(secrets) == {} {
      forall n | n in secrets ensures TrimSpace(n) == "" {
        assert TrimSpace(n) == "" || TrimSpace(n) in Names(secrets);
      }
    }
  }

  ghost predicate RequestTurnedAway(pre: View, post: View, l: Lease, r: LeaseRequest, c: Call, because: Refusal)
    requires c.Resolve?
  {
    match because
    case NotOwned => c.caller != "" && r.agentID != c.caller
    case NotApproved => !r.status.Approved?
    case SecretBackendUnavailable =>
      if TrimSpace(r.envPath) == "" then exists n | n in Names(c.names) :: n !in c.backend && FailedLast(post.log, l, n)
      else c.envFile.None? && OnlyOfEnvPath(pre.log, post.log, r, EnvPathRejected)
    case EnvPathMismatch =>
      && TrimSpace(r.envPath) != "" && (c.approvedNow == "" || (c.envFile.Some? && c.envFile.value.1 != c.approvedNow))
      && OnlyOfEnvPath(pre.log, post.log, r, EnvPathRejected)
    case _ => false
  }
}
