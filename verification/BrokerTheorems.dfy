/** The promises of the lease broker, for every run and every pattern of disk and audit failures. */
module BrokerTheorems {
  import opened Text
  import opened Time
  import opened Domain
  import opened RequestPolicy
  import opened Durability
  import opened Broker
  import opened BrokerRuns
  import opened BrokerAnswers

  /**
   At every boundary, the audit log alone rebuilds all statuses and all lease tokens. With a sink that may
   append and then fail, that holds as long as the gate is open; behind a closed gate the log tells of at
   most one change more than was made.
   */
  lemma ReplayRebuildsMemory(cfg: Config, views: seq<View>, moments: seq<Moment>, i: nat)
    requires IsRun(cfg, views, moments) && i < |views|
    ensures cfg.cleanAudit || views[i].gateOpen ==> Replay(views[i].log) == LedgerOf(views[i].mem)
    ensures Replay(views[i].log) == LedgerOf(views[i].mem) || exists lost :: TellsMore(views[i], lost)
  {
    RunInv(cfg, views, moments, i);
  }

  /** At every boundary with an open gate, the snapshot on disk is the memory. */
  lemma SnapshotIsMemoryWhileOpen(cfg: Config, views: seq<View>, moments: seq<Moment>, i: nat)
    requires IsRun(cfg, views, moments) && i < |views| && cfg.persists
    ensures views[i].gateOpen ==> views[i].disk == views[i].mem
  {
    RunInv(cfg, views, moments, i);
  }

  /**
   A refused call leaves memory alone, whichever step failed, and the story told by the log too, unless an
   audit write failed after it had appended the event of the change that was then undone.
   */
  lemma RefusalLeavesMemory(cfg: Config, pre: View, c: Call, because: Refusal, post: View)
    requires Next(cfg, pre, Handled(c, Refused(because)), post)
    ensures post.mem == pre.mem
    ensures cfg.cleanAudit || !because.AuditUnavailable? ==> Replay(post.log) == Replay(pre.log)
    ensures WellKeyed(pre.mem) ==> Replay(post.log) == Replay(pre.log) || exists lost :: Strands(cfg, pre, lost, post)
    ensures because.CommitFailed? || because.AuditUnavailable? ==> !post.gateOpen
    ensures !(because.CommitFailed? || because.AuditUnavailable?) ==> post.gateOpen == pre.gateOpen
    ensures post.gateOpen ==> post.disk == pre.disk
  {
    RefusalAndGate(cfg, pre, c, because, post);
    RefusalIsQuiet(cfg, pre, c, because, post);
    if Quietly(pre.log, post.log) {
      ReplayQuiet(pre.log, post.log);
    } else if WellKeyed(pre.mem) {
      QuietUnlessSuccess(cfg, pre, Handled(c, Refused(because)), post);
    }
  }

  /** Memory is as before; the gate is closed for a failed commit or audit write, and otherwise as it was. */
  ghost predicate Refuses(pre: View, because: Refusal, post: View) {
    && post.mem == pre.mem
    && post.gateOpen == (pre.gateOpen && !because.CommitFailed? && !because.AuditUnavailable?)
    && (post.gateOpen ==> post.disk == pre.disk)
  }

  lemma RefusalAndGate(cfg: Config, pre: View, c: Call, because: Refusal, post: View)
    requires Step(cfg, pre, c, Refused(because), post)
    ensures Refuses(pre, because, post)
  {
    if pre.gateOpen {
      match c
      case Submit(_, _, _, _, _, _, _, _, _, _, _) => SubmitRefuses(cfg, pre, c, because, post);
      case Approve(_, _, _) => ApproveRefuses(cfg, pre, c, because, post);
      case Deny(id) => CloseRefuses(cfg, pre, id, "", RequestDenied, because, post);
      case Cancel(id, agent) => CloseRefuses(cfg, pre, id, agent, RequestCancelledByAgent, because, post);
      case Access(_, _, _, _, _, _) =>
      case Resolve(_, _, _, _, _, _, _, _) =>
    }
  }

  lemma SubmitRefuses(cfg: Config, pre: View, c: Call, because: Refusal, post: View)
    requires c.Submit? && pre.gateOpen && SubmitStep(cfg, pre, c, Refused(because), post)
    ensures Refuses(pre, because, post)
  {
    if PolicyStep(cfg, pre, c, Refused(because), post) {
      PolicyStepIsIdle(cfg, pre, c, Refused(because), post);
    }
  }

  lemma ApproveRefuses(cfg: Config, pre: View, c: Call, because: Refusal, post: View)
    requires c.Approve? && pre.gateOpen && ApproveStep(cfg, pre, c, Refused(because), post)
    ensures Refuses(pre, because, post)
  {
  }

  lemma CloseRefuses(cfg: Config, pre: View, id: string, agent: string, kind: EventKind, because: Refusal, post: View)
    requires pre.gateOpen && CloseStep(cfg, pre, id, agent, kind, Refused(because), post)
    ensures Refuses(pre, because, post)
  {
  }

  lemma RefusalIsQuiet(cfg: Config, pre: View, c: Call, because: Refusal, post: View)
    requires Step(cfg, pre, c, Refused(because), post)
    ensures cfg.cleanAudit || !because.AuditUnavailable? ==> Quietly(pre.log, post.log)
  {
    if pre.gateOpen {
      match c
      case Submit(_, _, _, _, _, _, _, _, _, _, _) =>
        if PolicyStep(cfg, pre, c, Refused(because), post) {
          PolicyStepIsIdle(cfg, pre, c, Refused(because), post);
        }
      case Approve(_, _, _) =>
      case Deny(_) =>
      case Cancel(_, _) =>
      case Access(_, _, _, _, _, _) =>
      case Resolve(_, _, _, _, _, _, _, _) =>
    }
  }

  /** Once closed, the gate stays closed and every later call is refused. */
  lemma {:induction false} GateStaysClosed(cfg: Config, views: seq<View>, moments: seq<Moment>, i: nat, j: nat)
    requires IsRun(cfg, views, moments) && i <= j < |views| && !views[i].gateOpen
    ensures !views[j].gateOpen
    ensures j < |moments| && moments[j].Handled? ==> moments[j].out == Refused(DurabilityClosed)
    ensures views[j].mem == views[i].mem
  {
    if i < j {
      GateStaysClosed(cfg, views, moments, i, j - 1);
      assert Next(cfg, views[j - 1], moments[j - 1], views[j]);
    }
    assert j < |moments| ==> Next(cfg, views[j], moments[j], views[j + 1]);
  }

  /** A request has a lease exactly when it is approved, and then only one. */
  lemma LeaseOfRequestUnique(cfg: Config, views: seq<View>, moments: seq<Moment>, i: nat, id: string)
    requires IsRun(cfg, views, moments) && i < |views|
    ensures
      var w := views[i].mem;
      && (id in w.requests && w.requests[id].status.Approved? <==> HasLease(w, id))
      && (forall tok, tok' | tok in w.leases && tok' in w.leases && w.leases[tok].requestID == w.leases[tok'].requestID == id ::
            tok == tok')
      && (forall tok | tok in w.leases && w.leases[tok].requestID == id ::
            var r := w.requests[id];
            w.leases[tok] == Lease(tok, id, r.agentID, r.taskID, r.intent, r.secrets, r.commandFingerprint, r.workdirFingerprint,
                                   w.leases[tok].expiresAt))
  {
    RunInv(cfg, views, moments, i);
    var w := views[i].mem;
    if HasLease(w, id) {
      var tok :| tok in w.leases && w.leases[tok].requestID == id;
      assert LeaseFits(w, tok);
    }
    forall tok | tok in w.leases && w.leases[tok].requestID == id
      ensures id in w.requests && w.leases[tok] == NewLease(w.requests[id], tok, w.leases[tok].expiresAt)
    {
      assert LeaseFits(w, tok);
    }
  }

  /** Every decided request and every lease of `w` is in `w'`, unchanged. */
  ghost predicate KeepsDecisions(w: World, w': World) {
    && (forall id | id in w.requests && !w.requests[id].status.Pending? :: id in w'.requests && w'.requests[id] == w.requests[id])
    && (forall tok | tok in w.leases :: tok in w'.leases && w'.leases[tok] == w.leases[tok])
  }

  lemma RunStepKeepsDecisions(cfg: Config, views: seq<View>, moments: seq<Moment>, i: nat)
    requires IsRun(cfg, views, moments) && i < |moments|
    ensures KeepsDecisions(views[i].mem, views[i + 1].mem)
  {
    RunInv(cfg, views, moments, i);
    StepKeepsDecisions(cfg, views[i], moments[i], views[i + 1]);
  }

  lemma StepKeepsDecisions(cfg: Config, pre: View, m: Moment, post: View)
    requires Next(cfg, pre, m, post) && WellKeyed(pre.mem)
    ensures KeepsDecisions(pre.mem, post.mem)
  {
    var ch := StepChanges(cfg, pre, m, post);
    ChangeKeepsDecisions(pre.mem, ch);
  }

  lemma ChangeKeepsDecisions(w: World, ch: Change)
    requires Applicable(w, ch)
    ensures KeepsDecisions(w, Apply(w, ch))
  {
  }

  /** A decided request never changes again, and neither does a lease. */
  lemma DecisionsAreFinal(cfg: Config, views: seq<View>, moments: seq<Moment>, i: nat, j: nat)
    requires IsRun(cfg, views, moments) && i <= j < |views|
    ensures KeepsDecisions(views[i].mem, views[j].mem)
  {
    forall k | 0 <= k < |moments| ensures KeepsDecisions(views[k].mem, views[k + 1].mem) {
      RunStepKeepsDecisions(cfg, views, moments, k);
    }
    KeepsDecisionsAlong(views, i, j);
  }

  lemma {:induction false} KeepsDecisionsAlong(views: seq<View>, i: nat, j: nat)
    requires i <= j < |views|
    requires forall k | 0 <= k < |views| - 1 :: KeepsDecisions(views[k].mem, views[k + 1].mem)
    ensures KeepsDecisions(views[i].mem, views[j].mem)
  {
    if i < j {
      KeepsDecisionsAlong(views, i, j - 1);
      assert KeepsDecisions(views[j - 1].mem, views[j - 1 + 1].mem);
      KeepsDecisionsTransitive(views[i].mem, views[j - 1].mem, views[j].mem);
    }
  }

  lemma KeepsDecisionsTransitive(a: World, b: World, c: World)
    requires KeepsDecisions(a, b) && KeepsDecisions(b, c)
    ensures KeepsDecisions(a, c)
  {
  }

  /** Two requests ask for the same, part by part. */
  predicate SamePurpose(r: LeaseRequest, r': LeaseRequest) {
    Equivalent(Input(r.agentID, r.intent, r.secrets, r.commandFingerprint, r.workdirFingerprint),
               Input(r'.agentID, r'.intent, r'.secrets, r'.commandFingerprint, r'.workdirFingerprint))
  }

  /** No agent ever has more pending requests than the cap. */
  lemma CapHolds(cfg: Config, views: seq<View>, moments: seq<Moment>, i: nat, agent: string)
    requires IsRun(cfg, views, moments) && i < |views|
    ensures
      var requests := views[i].mem.requests;
      |set id | id in requests && requests[id].status.Pending? && TrimSpace(requests[id].agentID) == agent|
      <= cfg.throttle.Effective().maxPendingPerAgent
  {
    RunInv(cfg, views, moments, i);
    PendingOfAgent(views[i].mem, agent);
  }

  /** Requests for the same that are pending together were created at least the cooldown apart. */
  lemma SpacingHolds(cfg: Config, views: seq<View>, moments: seq<Moment>, i: nat, a: string, b: string)
    requires IsRun(cfg, views, moments) && i < |views|
    requires a in views[i].mem.requests && b in views[i].mem.requests && a != b
    requires views[i].mem.requests[a].status.Pending? && views[i].mem.requests[b].status.Pending?
    requires SamePurpose(views[i].mem.requests[a], views[i].mem.requests[b])
    ensures
      var first, second := views[i].mem.requests[a].createdAt, views[i].mem.requests[b].createdAt;
      var cooldown := cfg.throttle.Effective().identicalRequestCooldown;
      first + cooldown <= second || second + cooldown <= first
  {
    RunInv(cfg, views, moments, i);
    var w := views[i].mem;
    SameMeansSameKey(RequestInput(w.requests[a]), RequestInput(w.requests[b]));
    assert a in PendingIDs(w) && b in PendingIDs(w) && RequestKey(w.requests[a]) == RequestKey(w.requests[b]);
    assert Apart(w.requests[a], w.requests[b], cfg.throttle.Effective().identicalRequestCooldown);
  }

  /** Nothing pending and equivalent carries a creation time in the future. */
  ghost predicate NoneInFuture(w: World, key: string, now: int) {
    forall id | PendingEquivalent(w, key, id) :: w.requests[id].createdAt <= now
  }

  /** If nothing changes, `wait` is the shortest time after which the cooldown lifts. */
  ghost predicate IsLeastWait(w: World, key: string, cooldown: int, now: int, wait: int) {
    && (forall t | now <= t < now + wait :: CoolingDown(w, key, cooldown, t))
    && !CoolingDown(w, key, cooldown, now + wait)
  }

  /** The remaining time that is computed is the least wait, if nothing lies in the future and only then. */
  lemma WaitIsLeast(w: World, key: string, cooldown: int, now: int, wait: int)
    requires IsRetryAfter(w, key, cooldown, now, wait)
    ensures forall t | now <= t < now + wait :: CoolingDown(w, key, cooldown, t)
    ensures IsLeastWait(w, key, cooldown, now, wait) <==> NoneInFuture(w, key, now)
  {
  }

  /** With a clock that never runs back, it is always the least wait. */
  lemma WaitIsLeastInRuns(cfg: Config, views: seq<View>, moments: seq<Moment>, i: nat, key: string, cooldown: int, now: int, wait: int)
    requires IsRun(cfg, views, moments) && i < |views| && views[i].clock <= now
    requires IsRetryAfter(views[i].mem, key, cooldown, now, wait)
    ensures IsLeastWait(views[i].mem, key, cooldown, now, wait)
  {
    RunInv(cfg, views, moments, i);
    WaitIsLeast(views[i].mem, key, cooldown, now, wait);
  }

  /**
   The wait that the caller is told, which is at least a second, is long enough if nothing lies in the
   future, and then it is the least one exactly when the remaining time is at least a second itself.
   */
  lemma ToldWait(w: World, key: string, cooldown: int, now: int, exact: int)
    requires IsRetryAfter(w, key, cooldown, now, exact) && NoneInFuture(w, key, now)
    ensures forall t | t >= now + ReportedWait(exact) :: !CoolingDown(w, key, cooldown, t)
    ensures IsLeastWait(w, key, cooldown, now, ReportedWait(exact)) <==> exact >= SECOND
  {
    forall t | t >= now + exact ensures !CoolingDown(w, key, cooldown, t) {
      assert forall id | PendingEquivalent(w, key, id) :: BlocksFor(w.requests[id], cooldown, t) <= 0;
    }
    WaitIsLeast(w, key, cooldown, now, exact);
    if exact < SECOND {
      assert !CoolingDown(w, key, cooldown, now + exact);
    }
  }

  /**
   In runs a caller throttled for the cooldown is told to wait until the latest equivalent pending request
   is as old as the cooldown, or for a second. If nothing changes, the cooldown is over for good by then,
   and no sooner if it was more than a second.
   */
  lemma ToldWaitInRuns(cfg: Config, views: seq<View>, moments: seq<Moment>, i: nat) returns (now: int, latest: string)
    requires IsRun(cfg, views, moments) && i < |moments|
    requires moments[i].Handled? && moments[i].out.Refused? && moments[i].out.because.Throttled?
    requires moments[i].out.because.why.Cooldown?
    ensures moments[i].call.Submit? && views[i].clock <= now <= views[i + 1].clock
    ensures latest in views[i].mem.requests && views[i].mem.requests[latest].status.Pending?
    ensures
      var w, c, told := views[i].mem, moments[i].call, moments[i].out.because.retryAfter;
      var over := w.requests[latest].createdAt + cfg.throttle.Effective().identicalRequestCooldown;
      && (forall id | id in w.requests && w.requests[id].status.Pending? && AsksTheSame(c, w.requests[id]) ::
            w.requests[id].createdAt <= w.requests[latest].createdAt)
      && now < over && told == (if over - now < SECOND then SECOND else over - now)
    ensures
      var w, c, told := views[i].mem, moments[i].call, moments[i].out.because.retryAfter;
      var cooldown := cfg.throttle.Effective().identicalRequestCooldown;
      var key := EquivalenceKey(Input(c.agentID, c.intent, c.secrets, c.commandFingerprint, c.workdirFingerprint));
      && (forall t | t >= now + told :: !CoolingDown(w, key, cooldown, t))
      && (IsLeastWait(w, key, cooldown, now, told) <==> w.requests[latest].createdAt + cooldown - now >= SECOND)
  {
    var pre, c, told, post := views[i], moments[i].call, moments[i].out.because.retryAfter, views[i + 1];
    assert Next(cfg, pre, moments[i], post);
    RunInv(cfg, views, moments, i);
    now, latest := CooldownMeans(cfg, pre, c, told, post);
    SubmitKey(c);
    ToldWait(pre.mem, EquivalenceKey(SubmitInput(c)), cfg.throttle.Effective().identicalRequestCooldown, now,
             pre.mem.requests[latest].createdAt + cfg.throttle.Effective().identicalRequestCooldown - now);
  }

  /**
   A lease handed out again is unexpired and agrees with the request in all five parts, and nothing
   is created. In the caller's own four texts each unit separator, if there is any, has white space beside it.
   */
  lemma ReuseIsEquivalent(cfg: Config, views: seq<View>, moments: seq<Moment>, i: nat)
    requires IsRun(cfg, views, moments) && i < |moments|
    requires moments[i].Handled? && moments[i].out.Reused?
    requires
      var c := moments[i].call;
      c.Submit? ==> Loose(Input(c.agentID, c.intent, c.secrets, c.commandFingerprint, c.workdirFingerprint))
    ensures moments[i].call.Submit?
    ensures
      var l := moments[i].out.lease;
      && views[i + 1].mem == views[i].mem
      && l.token in views[i].mem.leases && views[i].mem.leases[l.token] == l
      && (exists now | views[i].clock <= now <= views[i + 1].clock :: !l.IsExpired(now))
      && AsksForLease(moments[i].call, l)
  {
    var pre, c, post := views[i], moments[i].call, views[i + 1];
    assert Next(cfg, pre, moments[i], post);
    RunInv(cfg, views, moments, i);
    var l := moments[i].out.lease;
    var now :| pre.clock <= now <= post.clock && Reusable(pre.mem, EquivalenceKey(SubmitInput(c)), now, l.token)
               && pre.mem.leases[l.token] == l;
    assert LeaseFits(pre.mem, l.token);
    var r := pre.mem.requests[l.requestID];
    ValidSecretsAreSeparatorFree(cfg.policy, c.ttl, c.secrets);
    ValidSecretsAreSeparatorFree(cfg.policy, r.ttlMinutes, r.secrets);
    SubmitKey(c);
    KeyIdentifiesRequest(Input(c.agentID, c.intent, c.secrets, c.commandFingerprint, c.workdirFingerprint), LeaseInput(l));
  }
}
