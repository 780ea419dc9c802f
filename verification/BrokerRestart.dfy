/**
 Restarting the broker from the snapshot on disk: which calls may leave a snapshot that tells another
 story than the audit log.
 */
module BrokerRestart {
  import opened Text
  import opened Time
  import opened Domain
  import opened RequestPolicy
  import opened Durability
  import opened Broker
  import opened BrokerRuns

  lemma LedgerShowsChange(w: World, ch: Change)
    requires Applicable(w, ch) && !ch.Nothing?
    ensures LedgerOf(Apply(w, ch)) != LedgerOf(w)
  {
    var before, after := LedgerOf(w).statuses, LedgerOf(Apply(w, ch)).statuses;
    match ch
    case Creates(r, _) => assert r.id in after && r.id !in before;
    case Grants(id, _, _) => assert after[id] != before[id];
    case Closes(id, _) => assert after[id] != before[id];
  }

  /**
   What a failed mutation leaves on disk: the memory, or visibly the state that failed; and if the log
   tells of a change that memory does not hold, it is the change to that state.
   */
  ghost predicate DiskVisible(post: View, failed: bool) {
    && (!failed ==> post.disk == post.mem)
    && (post.disk != post.mem ==>
          && LedgerOf(post.disk) != LedgerOf(post.mem)
          && (Replay(post.log) == LedgerOf(post.mem) || Replay(post.log) == LedgerOf(post.disk)))
  }

  /** The event is that of the change, whenever it is logged. */
  ghost predicate Announces(kind: EventKind, r: LeaseRequest, token: string, ch: Change) {
    !ch.Nothing? && forall at :: EventFits(WithEvent(ch, EventAbout(kind, at, r, token)))
  }

  lemma RollbackVisible(cfg: Config, pre: View, post: View, kind: EventKind, r: LeaseRequest, token: string, ch: Change, failed: bool)
    requires cfg.persists && pre.disk == pre.mem && Replay(pre.log) == LedgerOf(pre.mem)
    requires Announces(kind, r, token, ch) && Applicable(pre.mem, ch)
    requires RollsBack(cfg, pre, post, Apply(pre.mem, ch), failed)
    requires Quietly(pre.log, post.log) || LosesEvent(cfg, pre, post, kind, r, token)
    ensures DiskVisible(post, failed)
  {
    LedgerShowsChange(pre.mem, ch);
    if Quietly(pre.log, post.log) {
      ReplayQuiet(pre.log, post.log);
    } else {
      var at :| Quietly(pre.log + [EventAbout(kind, at, r, token)], post.log);
      var lost := WithEvent(ch, EventAbout(kind, at, r, token));
      ReplayThenQuiet(pre.log, lost.event, post.log);
      LedgerAfter(pre.mem, lost);
      assert Apply(pre.mem, lost) == Apply(pre.mem, ch);
    }
  }

  ghost predicate RollbackFailed(out: Outcome) {
    out.Refused? && (out.because.CommitFailed? || out.because.AuditUnavailable?) && out.because.rollbackFailed
  }

  /** The call failed in its commit or its audit event. */
  predicate Fails(out: Outcome) {
    out.Refused? && (out.because.CommitFailed? || out.because.AuditUnavailable?)
  }

  lemma SubmitDisk(cfg: Config, pre: View, c: Call, out: Outcome, post: View)
    requires c.Submit? && SubmitStep(cfg, pre, c, out, post) && Admissible(pre, c) && Fails(out)
    requires cfg.persists && pre.disk == pre.mem && Replay(pre.log) == LedgerOf(pre.mem)
    ensures DiskVisible(post, RollbackFailed(out))
  {
    var now := CreationUndone(cfg, pre, c, out, post);
    var r := NewRequest(c, now);
    RollbackVisible(cfg, pre, post, RequestCreated, r, "", Creates(r, EventAbout(RequestCreated, now, r, "")), out.because.rollbackFailed);
  }

  lemma CreationUndone(cfg: Config, pre: View, c: Call, out: Outcome, post: View) returns (now: int)
    requires c.Submit? && SubmitStep(cfg, pre, c, out, post) && Fails(out)
    ensures RollsBack(cfg, pre, post, WithRequest(pre.mem, NewRequest(c, now)), out.because.rollbackFailed)
    ensures Quietly(pre.log, post.log) || LosesEvent(cfg, pre, post, RequestCreated, NewRequest(c, now), "")
  {
    now :| pre.clock <= now <= post.clock
      && RollsBack(cfg, pre, post, WithRequest(pre.mem, NewRequest(c, now)), out.because.rollbackFailed)
      && (Quietly(pre.log, post.log) || LosesEvent(cfg, pre, post, RequestCreated, NewRequest(c, now), ""));
  }

  lemma ApproveDisk(cfg: Config, pre: View, c: Call, out: Outcome, post: View)
    requires c.Approve? && ApproveStep(cfg, pre, c, out, post) && Admissible(pre, c) && WellKeyed(pre.mem) && Fails(out)
    requires cfg.persists && pre.disk == pre.mem && Replay(pre.log) == LedgerOf(pre.mem)
    ensures DiskVisible(post, RollbackFailed(out))
  {
    var failed := out.because.rollbackFailed;
    var approved :| pre.clock <= approved <= post.clock && RollsBack(cfg, pre, post, ApprovedWorld(pre.mem, c, approved), failed);
    var r := pre.mem.requests[c.requestID];
    var lease := NewLease(r, c.newToken, approved + EffectiveTTL(r, c.ttlMinutes) * MINUTE);
    var ch := Grants(c.requestID, lease, EventAbout(RequestApproved, approved, r, c.newToken));
    assert Apply(pre.mem, ch) == ApprovedWorld(pre.mem, c, approved);
    RollbackVisible(cfg, pre, post, RequestApproved, r, c.newToken, ch, failed);
  }

  lemma CloseDisk(cfg: Config, pre: View, id: string, byAgent: string, kind: EventKind, out: Outcome, post: View)
    requires CloseStep(cfg, pre, id, byAgent, kind, out, post) && Fails(out)
    requires WellKeyed(pre.mem) && (kind.RequestDenied? || kind.RequestCancelledByAgent?)
    requires cfg.persists && pre.disk == pre.mem && Replay(pre.log) == LedgerOf(pre.mem)
    ensures DiskVisible(post, RollbackFailed(out))
  {
    var r := pre.mem.requests[id];
    RollbackVisible(cfg, pre, post, kind, r, "", Closes(id, EventAbout(kind, 0, r, "")), out.because.rollbackFailed);
  }

  /** A call that does not fail in its commit or its audit event leaves disk and memory equal. */
  lemma OtherwiseEqual(cfg: Config, pre: View, c: Call, out: Outcome, post: View)
    requires Step(cfg, pre, c, out, post) && cfg.persists && pre.gateOpen && pre.disk == pre.mem
    requires Fails(out) ==> c.Access? || c.Resolve?
    ensures post.disk == post.mem
  {
    match c
    case Submit(_, _, _, _, _, _, _, _, _, _, _) =>
      if PolicyStep(cfg, pre, c, out, post) {
        PolicyStepIsIdle(cfg, pre, c, out, post);
      }
    case Approve(_, _, _) =>
    case Deny(_) =>
    case Cancel(_, _) =>
    case Access(_, _, _, _, _, _) =>
    case Resolve(_, _, _, _, _, _, _, _) =>
  }

  lemma FailedDisk(cfg: Config, pre: View, c: Call, out: Outcome, post: View)
    requires !c.Access? && !c.Resolve? && Fails(out) && Admissible(pre, c) && Step(cfg, pre, c, out, post)
    requires WellKeyed(pre.mem) && cfg.persists && pre.gateOpen && pre.disk == pre.mem && Replay(pre.log) == LedgerOf(pre.mem)
    ensures DiskVisible(post, RollbackFailed(out))
  {
    if c.Submit? {
      SubmitDisk(cfg, pre, c, out, post);
    } else if c.Approve? {
      ApproveDisk(cfg, pre, c, out, post);
    } else if c.Deny? {
      CloseDisk(cfg, pre, c.requestID, "", RequestDenied, out, post);
    } else {
      CloseDisk(cfg, pre, c.requestID, c.byAgent, RequestCancelledByAgent, out, post);
    }
  }

  lemma CallDisk(cfg: Config, pre: View, c: Call, out: Outcome, post: View)
    requires Admissible(pre, c) && Step(cfg, pre, c, out, post) && WellKeyed(pre.mem)
    requires cfg.persists && pre.gateOpen && pre.disk == pre.mem && Replay(pre.log) == LedgerOf(pre.mem)
    ensures DiskVisible(post, RollbackFailed(out))
  {
    if Fails(out) && !c.Access? && !c.Resolve? {
      FailedDisk(cfg, pre, c, out, post);
    } else {
      OtherwiseEqual(cfg, pre, c, out, post);
    }
  }

  /**
   After a call, a restart from the snapshot agrees with the log exactly when both agree with the memory
   or neither does; with a clean audit sink, exactly when the snapshot is the memory. It is the memory
   whenever the call did not report a failed rollback.
   */
  lemma RestartAgreesIff(cfg: Config, pre: View, c: Call, out: Outcome, post: View)
    requires Inv(cfg, pre) && cfg.persists && pre.gateOpen
    requires Next(cfg, pre, Handled(c, out), post)
    ensures LedgerOf(post.disk) == Replay(post.log) <==> ((post.disk == post.mem) == (Replay(post.log) == LedgerOf(post.mem)))
    ensures cfg.cleanAudit ==> (LedgerOf(post.disk) == Replay(post.log) <==> post.disk == post.mem)
    ensures !RollbackFailed(out) ==> post.disk == post.mem
  {
    CallDisk(cfg, pre, c, out, post);
    InvAfter(cfg, pre, Handled(c, out), post);
  }

  // Which calls get as far as changing the store

  /** The request or decision passes every check that the state alone decides. */
  predicate Mutates(cfg: Config, w: World, c: Call) {
    match c
    case Submit(agentID, _, _, ttl, secrets, _, _, _, envPath, canonical, _) =>
      && cfg.policy.ValidateRequest(ttl, secrets)
      && (TrimSpace(envPath) != "" ==> canonical.Some?)
      && |PendingOf(w, TrimSpace(agentID))| < cfg.throttle.Effective().maxPendingPerAgent
    case Approve(id, ttlMinutes, _) =>
      && id in PendingIDs(w)
      && cfg.policy.ValidateRequest(EffectiveTTL(w.requests[id], ttlMinutes), w.requests[id].secrets)
    case Deny(id) => id in PendingIDs(w)
    case Cancel(id, agent) => id in PendingIDs(w) && (agent != "" ==> w.requests[id].agentID == agent)
    case Access(_, _, _, _, _, _) => false
    case Resolve(_, _, _, _, _, _, _, _) => false
  }

  /** Stands for the event where it does not matter. */
  const NO_EVENT: AuditEvent := SystemEvent(DurabilityGateClosed, 0)

  /** What the call would do at instant `now`, announced by `e`. */
  ghost function Intended(w: World, c: Call, now: int, e: AuditEvent): Change
    requires !c.Access? && !c.Resolve? && (c.Approve? ==> c.requestID in w.requests)
  {
    match c
    case Submit(_, _, _, _, _, _, _, _, _, _, _) => Creates(NewRequest(c, now), e)
    case Approve(id, ttlMinutes, token) =>
      Grants(id, NewLease(w.requests[id], token, now + EffectiveTTL(w.requests[id], ttlMinutes) * MINUTE), e)
    case Deny(id) => Closes(id, e)
    case Cancel(id, _) => Closes(id, e)
  }

  /**
   An instant late enough for every cooldown to have lifted and every lease to have expired. A call may
   last that long, so neither protects the store from it.
   */
  lemma LateInstant(w: World, cooldown: int, from: int) returns (t: int)
    ensures from <= t
    ensures forall id | id in w.requests :: BlocksFor(w.requests[id], cooldown, t) <= 0
    ensures forall tok | tok in w.leases :: w.leases[tok].IsExpired(t)
  {
    t := if from < from + cooldown then from + cooldown else from;
    var ids := w.requests.Keys;
    while ids != {}
      invariant ids <= w.requests.Keys && from <= t && from + cooldown <= t
      invariant forall id | id in w.requests && id !in ids :: BlocksFor(w.requests[id], cooldown, t) <= 0
      decreases ids
    {
      var id :| id in ids;
      ids := ids - {id};
      if t < w.requests[id].createdAt + cooldown || t < w.requests[id].createdAt {
        t := if cooldown < 0 then w.requests[id].createdAt else w.requests[id].createdAt + cooldown;
      }
    }
    var toks := w.leases.Keys;
    while toks != {}
      invariant toks <= w.leases.Keys && from <= t
      invariant forall id | id in w.requests :: BlocksFor(w.requests[id], cooldown, t) <= 0
      invariant forall tok | tok in w.leases && tok !in toks :: w.leases[tok].IsExpired(t)
      decreases toks
    {
      var tok :| tok in toks;
      toks := toks - {tok};
      if t < w.leases[tok].expiresAt {
        t := w.leases[tok].expiresAt;
      }
    }
  }

  /** The state after a mutation was kept on disk but neither logged nor kept in memory. */
  ghost function Stranded(pre: View, world: World, now: int): View {
    pre.(disk := world, gateOpen := false, clock := now)
  }

  ghost predicate Unrecorded(because: Refusal) {
    because == CommitFailed(true) || because == AuditUnavailable(true)
  }

  lemma StrandedIsRollback(cfg: Config, pre: View, world: World, now: int)
    requires cfg.persists && pre.clock <= now
    ensures RollsBack(cfg, pre, Stranded(pre, world, now), world, true)
  {
  }

  lemma SubmitStrands(cfg: Config, pre: View, c: Call, because: Refusal) returns (now: int)
    requires cfg.persists && pre.gateOpen && Admissible(pre, c) && Unrecorded(because)
    requires c.Submit? && Mutates(cfg, pre.mem, c)
    ensures Applicable(pre.mem, Intended(pre.mem, c, now, NO_EVENT))
    ensures SubmitStep(cfg, pre, c, Refused(because), Stranded(pre, Apply(pre.mem, Intended(pre.mem, c, now, NO_EVENT)), now))
  {
    now := LateInstant(pre.mem, cfg.throttle.Effective().identicalRequestCooldown, pre.clock);
    var world := WithRequest(pre.mem, NewRequest(c, now));
    StrandedIsRollback(cfg, pre, world, now);
    var post := Stranded(pre, world, now);
    assert RollsBack(cfg, pre, post, WithRequest(pre.mem, NewRequest(c, now)), true);
    var key := EquivalenceKey(SubmitInput(c));
    assert !CoolingDown(pre.mem, key, cfg.throttle.Effective().identicalRequestCooldown, now);
    assert NoneReusable(pre.mem, key, now);
    assert PassesThrottle(cfg, pre, c, now);
  }

  lemma ApprovalStrands(cfg: Config, pre: View, c: Call, because: Refusal)
    requires cfg.persists && pre.gateOpen && Unrecorded(because)
    requires c.Approve? && Mutates(cfg, pre.mem, c)
    ensures ApproveStep(cfg, pre, c, Refused(because), Stranded(pre, ApprovedWorld(pre.mem, c, pre.clock), pre.clock))
  {
    StrandedIsRollback(cfg, pre, ApprovedWorld(pre.mem, c, pre.clock), pre.clock);
  }

  lemma DecisionStrands(cfg: Config, pre: View, c: Call, because: Refusal)
    requires cfg.persists && pre.gateOpen && Admissible(pre, c) && Unrecorded(because) && WellKeyed(pre.mem)
    requires !c.Submit? && Mutates(cfg, pre.mem, c)
    ensures Applicable(pre.mem, Intended(pre.mem, c, pre.clock, NO_EVENT))
    ensures Next(cfg, pre, Handled(c, Refused(because)),
                 Stranded(pre, Apply(pre.mem, Intended(pre.mem, c, pre.clock, NO_EVENT)), pre.clock))
  {
    var world := Apply(pre.mem, Intended(pre.mem, c, pre.clock, NO_EVENT));
    if c.Approve? {
      assert world == ApprovedWorld(pre.mem, c, pre.clock);
      ApprovalStrands(cfg, pre, c, because);
    } else {
      StrandedIsRollback(cfg, pre, world, pre.clock);
    }
  }

  /**
   The failure is real for every call that gets as far as changing the store, and both for a commit and
   for an audit event that fails, if the rollback cannot be saved either: the snapshot then tells of a
   request, lease or decision that the audit log never heard of. The gate is then closed.
   */
  lemma RestartMayDiverge(cfg: Config, pre: View, c: Call, because: Refusal)
    requires Inv(cfg, pre) && cfg.persists && pre.gateOpen && Admissible(pre, c)
    requires Mutates(cfg, pre.mem, c) && Unrecorded(because)
    ensures exists post ::
      && Next(cfg, pre, Handled(c, Refused(because)), post)
      && LedgerOf(post.disk) != Replay(post.log)
      && !post.gateOpen
  {
    var now := pre.clock;
    if c.Submit? {
      now := SubmitStrands(cfg, pre, c, because);
    } else {
      DecisionStrands(cfg, pre, c, because);
    }
    var ch := Intended(pre.mem, c, now, NO_EVENT);
    var post := Stranded(pre, Apply(pre.mem, ch), now);
    assert Next(cfg, pre, Handled(c, Refused(because)), post);
    LedgerShowsChange(pre.mem, ch);
  }

  lemma SubmitUnchanged(cfg: Config, pre: View, c: Call, out: Outcome, post: View)
    requires c.Submit? && SubmitStep(cfg, pre, c, out, post) && !Mutates(cfg, pre.mem, c)
    ensures Idle(pre, post)
  {
    if PolicyStep(cfg, pre, c, out, post) {
      PolicyStepIsIdle(cfg, pre, c, out, post);
    }
  }

  lemma ApproveUnchanged(cfg: Config, pre: View, c: Call, out: Outcome, post: View)
    requires c.Approve? && ApproveStep(cfg, pre, c, out, post) && !Mutates(cfg, pre.mem, c)
    ensures Idle(pre, post)
  {
  }

  lemma UnchangedDisk(cfg: Config, pre: View, c: Call, out: Outcome, post: View)
    requires Next(cfg, pre, Handled(c, out), post) && pre.gateOpen
    requires !Mutates(cfg, pre.mem, c)
    ensures Idle(pre, post)
  {
    match c
    case Submit(_, _, _, _, _, _, _, _, _, _, _) => SubmitUnchanged(cfg, pre, c, out, post);
    case Approve(_, _, _) => ApproveUnchanged(cfg, pre, c, out, post);
    case Deny(_) =>
    case Cancel(_, _) =>
    case Access(_, _, _, _, _, _) =>
    case Resolve(_, _, _, _, _, _, _, _) =>
  }

  /**
   Whether a restart can disagree with the log is decided before the call: whatever happens to disk and
   audit, the snapshot agrees afterwards, exactly when the call is one that never changes the store.
   */
  lemma RestartAlwaysAgreesIff(cfg: Config, pre: View, c: Call)
    requires Inv(cfg, pre) && cfg.persists && pre.gateOpen && Admissible(pre, c)
    ensures (forall out, post | Next(cfg, pre, Handled(c, out), post) :: LedgerOf(post.disk) == Replay(post.log))
       <==> !Mutates(cfg, pre.mem, c)
  {
    if Mutates(cfg, pre.mem, c) {
      RestartMayDiverge(cfg, pre, c, CommitFailed(true));
    } else {
      forall out, post | Next(cfg, pre, Handled(c, out), post) ensures LedgerOf(post.disk) == Replay(post.log) {
        UnchangedDisk(cfg, pre, c, out, post);
        ReplayQuiet(pre.log, post.log);
      }
    }
  }

  // A sink that may append and then fail

  /** The state after a mutation was undone although its event got into the log. */
  ghost function Overtold(pre: View, event: AuditEvent, now: int): View {
    pre.(log := pre.log + [event], gateOpen := false, clock := now)
  }

  lemma SubmitOvertold(cfg: Config, pre: View, c: Call) returns (now: int, e: AuditEvent)
    requires pre.gateOpen && Admissible(pre, c) && !cfg.cleanAudit && (cfg.persists ==> pre.disk == pre.mem)
    requires c.Submit? && Mutates(cfg, pre.mem, c)
    ensures Applicable(pre.mem, Intended(pre.mem, c, now, e)) && EventFits(Intended(pre.mem, c, now, e))
    ensures SubmitStep(cfg, pre, c, Refused(AuditUnavailable(false)), Overtold(pre, e, now))
  {
    now := LateInstant(pre.mem, cfg.throttle.Effective().identicalRequestCooldown, pre.clock);
    var r := NewRequest(c, now);
    e := EventAbout(RequestCreated, now, r, "");
    var post := Overtold(pre, e, now);
    assert RollsBack(cfg, pre, post, WithRequest(pre.mem, r), false);
    assert LosesEvent(cfg, pre, post, RequestCreated, r, "") by {
      assert Quietly(pre.log + [EventAbout(RequestCreated, now, r, "")], post.log);
    }
    var key := EquivalenceKey(SubmitInput(c));
    assert !CoolingDown(pre.mem, key, cfg.throttle.Effective().identicalRequestCooldown, now);
    assert NoneReusable(pre.mem, key, now);
    assert PassesThrottle(cfg, pre, c, now);
    CreationOvertold(cfg, pre, c, now, post);
  }

  lemma CreationOvertold(cfg: Config, pre: View, c: Call, now: int, post: View)
    requires c.Submit? && Mutates(cfg, pre.mem, c) && pre.clock <= now == post.clock && PassesThrottle(cfg, pre, c, now)
    requires RollsBack(cfg, pre, post, WithRequest(pre.mem, NewRequest(c, now)), false)
    requires LosesEvent(cfg, pre, post, RequestCreated, NewRequest(c, now), "")
    ensures SubmitStep(cfg, pre, c, Refused(AuditUnavailable(false)), post)
  {
  }

  lemma DecisionOvertold(cfg: Config, pre: View, c: Call) returns (e: AuditEvent)
    requires pre.gateOpen && Admissible(pre, c) && !cfg.cleanAudit && (cfg.persists ==> pre.disk == pre.mem) && WellKeyed(pre.mem)
    requires !c.Submit? && Mutates(cfg, pre.mem, c)
    ensures Applicable(pre.mem, Intended(pre.mem, c, pre.clock, e)) && EventFits(Intended(pre.mem, c, pre.clock, e))
    ensures Next(cfg, pre, Handled(c, Refused(AuditUnavailable(false))), Overtold(pre, e, pre.clock))
  {
    var r := pre.mem.requests[c.requestID];
    var kind := if c.Approve? then RequestApproved else if c.Deny? then RequestDenied else RequestCancelledByAgent;
    var token := if c.Approve? then c.newToken else "";
    e := EventAbout(kind, pre.clock, r, token);
    var post := Overtold(pre, e, pre.clock);
    assert LosesEvent(cfg, pre, post, kind, r, token) by {
      assert Quietly(pre.log + [EventAbout(kind, pre.clock, r, token)], post.log);
    }
    if c.Approve? {
      assert RollsBack(cfg, pre, post, ApprovedWorld(pre.mem, c, pre.clock), false);
    } else {
      assert RollsBack(cfg, pre, post, WithDecision(pre.mem, c.requestID, Denied), false);
    }
  }

  /** With such a sink, every call that gets as far as changing the store may leave one change too many in the log. */
  lemma LogMayTellMore(cfg: Config, pre: View, c: Call)
    requires Inv(cfg, pre) && pre.gateOpen && Admissible(pre, c) && !cfg.cleanAudit && Mutates(cfg, pre.mem, c)
    ensures exists out, post :: Next(cfg, pre, Handled(c, out), post) && Replay(post.log) != LedgerOf(post.mem)
  {
    var now, e := pre.clock, NO_EVENT;
    if c.Submit? {
      now, e := SubmitOvertold(cfg, pre, c);
    } else {
      e := DecisionOvertold(cfg, pre, c);
    }
    var lost := Intended(pre.mem, c, now, e);
    var post := Overtold(pre, e, now);
    assert Next(cfg, pre, Handled(c, Refused(AuditUnavailable(false))), post);
    ReplayThenQuiet(pre.log, e, post.log);
    LedgerAfter(pre.mem, lost);
    LedgerShowsChange(pre.mem, lost);
  }

  /**
   Whatever happens to disk and audit, the log replays to the memory after a call, exactly when the sink is
   clean or the call is one that never changes the store.
   */
  lemma LogAlwaysAgreesIff(cfg: Config, pre: View, c: Call)
    requires Inv(cfg, pre) && pre.gateOpen && Admissible(pre, c)
    ensures (forall out, post | Next(cfg, pre, Handled(c, out), post) :: Replay(post.log) == LedgerOf(post.mem))
       <==> cfg.cleanAudit || !Mutates(cfg, pre.mem, c)
  {
    if !cfg.cleanAudit && Mutates(cfg, pre.mem, c) {
      LogMayTellMore(cfg, pre, c);
    } else {
      forall out, post | Next(cfg, pre, Handled(c, out), post) ensures Replay(post.log) == LedgerOf(post.mem) {
        if cfg.cleanAudit {
          InvAfter(cfg, pre, Handled(c, out), post);
        } else {
          UnchangedDisk(cfg, pre, c, out, post);
          ReplayQuiet(pre.log, post.log);
        }
      }
    }
  }
}
