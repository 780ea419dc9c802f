/** Where requests, leases and the accesses in the audit log come from: the calls behind them in a run. */
module BrokerHistory {
  import opened Text
  import opened Time
  import opened Domain
  import opened RequestPolicy
  import opened Durability
  import opened Broker
  import opened BrokerRuns
  import opened BrokerAnswers

  /** One step, as far as where requests, leases and log entries come from is concerned. */
  ghost predicate Adds(pre: View, m: Moment, post: View) {
    && pre.log <= post.log && pre.clock <= post.clock
    && (forall id | id in post.mem.requests :: RequestFrom(pre, m, post, id))
    && (forall tok | tok in post.mem.leases :: LeaseFrom(pre, m, post, tok))
  }

  /** A request was stored before the step, with the same particulars, or is the one that the step created. */
  ghost predicate RequestFrom(pre: View, m: Moment, post: View, id: string)
    requires id in post.mem.requests
  {
    var r := post.mem.requests[id];
    if id in pre.mem.requests then r == pre.mem.requests[id].(status := r.status)
    else m.Handled? && m.call.Submit? && m.call.newID == id && m.out == Created(r.(status := Pending))
  }

  ghost predicate LeaseFrom(pre: View, m: Moment, post: View, tok: string)
    requires tok in post.mem.leases
  {
    if tok in pre.mem.leases then post.mem.leases[tok] == pre.mem.leases[tok]
    else m.Handled? && m.call.Approve? && m.call.newToken == tok && m.out == Granted(post.mem.leases[tok])
  }

  lemma StepAdds(cfg: Config, pre: View, m: Moment, post: View)
    requires Next(cfg, pre, m, post) && WellKeyed(pre.mem)
    ensures Adds(pre, m, post)
  {
    var ch := StepChanges(cfg, pre, m, post);
    LogGrows(cfg, pre, ch, post);
    forall id | id in post.mem.requests ensures RequestFrom(pre, m, post, id) {
      RequestUnder(pre.mem, ch, id);
    }
    forall tok | tok in post.mem.leases ensures LeaseFrom(pre, m, post, tok) {
      LeaseUnder(pre.mem, ch, tok);
    }
  }

  lemma RequestUnder(w: World, ch: Change, id: string)
    requires Applicable(w, ch) && id in Apply(w, ch).requests
    ensures
      var r := Apply(w, ch).requests[id];
      if id in w.requests then r == w.requests[id].(status := r.status)
      else ch.Creates? && id == ch.request.id && r == ch.request == r.(status := Pending)
  {
  }

  lemma LeaseUnder(w: World, ch: Change, tok: string)
    requires Applicable(w, ch) && tok in Apply(w, ch).leases
    ensures
      if tok in w.leases then Apply(w, ch).leases[tok] == w.leases[tok]
      else ch.Grants? && tok == ch.lease.token && Apply(w, ch).leases[tok] == ch.lease
  {
  }

  ghost predicate AddsUp(views: seq<View>, moments: seq<Moment>) {
    && |views| == |moments| + 1 && views[0].mem == World(map[], map[])
    && forall k | 0 <= k < |moments| :: Adds(views[k], moments[k], views[k + 1])
  }

  lemma RunAdds(cfg: Config, views: seq<View>, moments: seq<Moment>)
    requires IsRun(cfg, views, moments)
    ensures AddsUp(views, moments)
  {
    forall k | 0 <= k < |moments| ensures Adds(views[k], moments[k], views[k + 1]) {
      RunInv(cfg, views, moments, k);
      StepAdds(cfg, views[k], moments[k], views[k + 1]);
    }
  }

  lemma {:induction false} LogGrowsAlong(views: seq<View>, moments: seq<Moment>, i: nat, j: nat)
    requires AddsUp(views, moments) && i <= j < |views|
    ensures views[i].log <= views[j].log && views[i].clock <= views[j].clock
  {
    if i < j {
      LogGrowsAlong(views, moments, i, j - 1);
      assert Adds(views[j - 1], moments[j - 1], views[j - 1 + 1]);
    }
  }

  /** Every stored request was created by an earlier call, and has only changed its status since. */
  lemma {:induction false} RequestWasSubmitted(views: seq<View>, moments: seq<Moment>, i: nat, id: string) returns (s: nat)
    requires AddsUp(views, moments) && i < |views| && id in views[i].mem.requests
    ensures s < i && moments[s].Handled? && moments[s].call.Submit? && moments[s].call.newID == id
    ensures moments[s].out == Created(views[i].mem.requests[id].(status := Pending))
  {
    if i == 0 {
      assert false;
    } else {
      assert Adds(views[i - 1], moments[i - 1], views[i - 1 + 1]);
      assert RequestFrom(views[i - 1], moments[i - 1], views[i], id);
      if id in views[i - 1].mem.requests {
        s := RequestWasSubmitted(views, moments, i - 1, id);
      } else {
        s := i - 1;
      }
    }
  }

  /** Every stored lease was granted by an earlier call, and is as it was then. */
  lemma {:induction false} LeaseWasGranted(views: seq<View>, moments: seq<Moment>, i: nat, tok: string) returns (a: nat)
    requires AddsUp(views, moments) && i < |views| && tok in views[i].mem.leases
    ensures a < i && moments[a].Handled? && moments[a].call.Approve? && moments[a].call.newToken == tok
    ensures moments[a].out == Granted(views[i].mem.leases[tok])
  {
    if i == 0 {
      assert false;
    } else {
      assert Adds(views[i - 1], moments[i - 1], views[i - 1 + 1]);
      assert LeaseFrom(views[i - 1], moments[i - 1], views[i], tok);
      if tok in views[i - 1].mem.leases {
        a := LeaseWasGranted(views, moments, i - 1, tok);
      } else {
        a := i - 1;
      }
    }
  }

  /** The minutes that the approval `p` of the request `q` grants. */
  function Minutes(p: Call, q: Call): int
    requires p.Approve? && q.Submit?
  {
    if p.ttlMinutes != 0 then p.ttlMinutes else q.ttl
  }

  /**
   Behind every lease there are a request and, after it, its approval: the lease gives what the request
   asked for, and lasts for the minutes of the approval from an instant of that call, which the audit log
   still tells of.
   */
  lemma LeaseStory(cfg: Config, views: seq<View>, moments: seq<Moment>, i: nat, tok: string)
    returns (s: nat, a: nat, approved: int, at: int)
    requires IsRun(cfg, views, moments) && i < |views| && tok in views[i].mem.leases
    ensures s < a < i && moments[s].Handled? && moments[s].call.Submit? && moments[a].Handled? && moments[a].call.Approve?
    ensures moments[a].call.requestID == moments[s].call.newID && moments[a].call.newToken == tok
    ensures
      var q := moments[s].call;
      views[i].mem.leases[tok]
      == Lease(tok, q.newID, q.agentID, q.taskID, TrimSpace(q.intent), q.secrets, q.commandFingerprint, q.workdirFingerprint,
               approved + Minutes(moments[a].call, q) * MINUTE)
    ensures cfg.policy.minTTLMinutes <= Minutes(moments[a].call, moments[s].call) <= cfg.policy.maxTTLMinutes
    ensures views[a].clock <= approved <= at <= views[a + 1].clock
    ensures
      var q := moments[s].call;
      && |views[a].log| < |views[i].log|
      && views[i].log[|views[a].log|] == AuditEvent(RequestApproved, at, q.agentID, q.taskID, q.newID, tok, "")
  {
    a := GrantBehind(cfg, views, moments, i, tok);
    approved, at := ApprovalBehind(cfg, views, moments, a);
    s := RequestBehind(cfg, views, moments, a);
  }

  lemma GrantBehind(cfg: Config, views: seq<View>, moments: seq<Moment>, i: nat, tok: string) returns (a: nat)
    requires IsRun(cfg, views, moments) && i < |views| && tok in views[i].mem.leases
    ensures a < i && moments[a].Handled? && moments[a].call.Approve? && moments[a].call.newToken == tok
    ensures moments[a].out == Granted(views[i].mem.leases[tok]) && views[a + 1].log <= views[i].log
  {
    RunAdds(cfg, views, moments);
    a := LeaseWasGranted(views, moments, i, tok);
    LogGrowsAlong(views, moments, a + 1, i);
  }

  lemma RequestBehind(cfg: Config, views: seq<View>, moments: seq<Moment>, a: nat) returns (s: nat)
    requires IsRun(cfg, views, moments) && a < |moments| && moments[a].Handled? && moments[a].call.Approve?
    requires moments[a].call.requestID in views[a].mem.requests
    ensures s < a && moments[s].Handled? && moments[s].call.Submit? && moments[s].call.newID == moments[a].call.requestID
    ensures
      var q, r := moments[s].call, views[a].mem.requests[moments[a].call.requestID];
      && r.agentID == q.agentID && r.taskID == q.taskID && r.intent == TrimSpace(q.intent)
      && r.ttlMinutes == q.ttl && r.secrets == q.secrets
      && r.commandFingerprint == q.commandFingerprint && r.workdirFingerprint == q.workdirFingerprint
  {
    RunAdds(cfg, views, moments);
    s := RequestWasSubmitted(views, moments, a, moments[a].call.requestID);
    SubmissionBehind(cfg, views, moments, s);
  }

  lemma ApprovalBehind(cfg: Config, views: seq<View>, moments: seq<Moment>, a: nat) returns (approved: int, at: int)
    requires IsRun(cfg, views, moments) && a < |moments| && moments[a].Handled? && moments[a].call.Approve? && moments[a].out.Granted?
    ensures moments[a].call.requestID in views[a].mem.requests && views[a].clock <= approved <= at <= views[a + 1].clock
    ensures
      var p, r := moments[a].call, views[a].mem.requests[moments[a].call.requestID];
      var ttl := if p.ttlMinutes != 0 then p.ttlMinutes else r.ttlMinutes;
      && moments[a].out.lease
         == Lease(p.newToken, p.requestID, r.agentID, r.taskID, r.intent, r.secrets, r.commandFingerprint, r.workdirFingerprint,
                  approved + ttl * MINUTE)
      && cfg.policy.minTTLMinutes <= ttl <= cfg.policy.maxTTLMinutes
      && |views[a].log| < |views[a + 1].log|
      && views[a + 1].log[|views[a].log|] == AuditEvent(RequestApproved, at, r.agentID, r.taskID, p.requestID, p.newToken, "")
  {
    RunInv(cfg, views, moments, a);
    assert Next(cfg, views[a], moments[a], views[a + 1]);
    approved, at := GrantedMeans(cfg, views[a], moments[a].call, moments[a].out.lease, views[a + 1]);
  }

  lemma SubmissionBehind(cfg: Config, views: seq<View>, moments: seq<Moment>, s: nat)
    requires IsRun(cfg, views, moments) && s < |moments| && moments[s].Handled? && moments[s].call.Submit? && moments[s].out.Created?
    ensures
      var q, r := moments[s].call, moments[s].out.request;
      && r.id == q.newID && r.agentID == q.agentID && r.taskID == q.taskID && r.intent == TrimSpace(q.intent)
      && r.ttlMinutes == q.ttl && r.secrets == q.secrets
      && r.commandFingerprint == q.commandFingerprint && r.workdirFingerprint == q.workdirFingerprint
  {
    assert Next(cfg, views[s], moments[s], views[s + 1]);
    CreatedMeans(cfg, views[s], moments[s].call, moments[s].out.request, views[s + 1]);
  }

  // Accesses in the audit log

  /** A new event about an access comes from a call under a lease that covers it. */
  lemma AccessFromCall(cfg: Config, pre: View, m: Moment, post: View, k: nat) returns (now: int)
    requires Next(cfg, pre, m, post) && |pre.log| <= k < |post.log| && post.log[k].kind in {SecretAccessStarted, SecretAccess}
    ensures m.Handled? && (m.call.Access? || m.call.Resolve?) && m.call.leaseToken in pre.mem.leases
    ensures pre.clock <= now <= post.log[k].timestamp
    ensures
      var c, e, l := m.call, post.log[k], pre.mem.leases[m.call.leaseToken];
      && LeaseCovers(l, c.caller, c.cmdFingerprint, c.wdFingerprint, e.secret, now)
      && e == AuditEvent(e.kind, e.timestamp, l.agentID, l.taskID, l.requestID, l.token, e.secret)
      && (if c.Access? then e.secret == c.secret else exists n | n in c.names :: TrimSpace(n) == e.secret)
  {
    OnlyReleasesTell(cfg, pre, m, post, k);
    var c, e := m.call, post.log[k];
    var l := pre.mem.leases[c.leaseToken];
    assert Earned(l, Asked(c), pre.clock, e);
    now :| pre.clock <= now <= e.timestamp && !l.IsExpired(now);
  }

  lemma OnlyReleasesTell(cfg: Config, pre: View, m: Moment, post: View, k: nat)
    requires Next(cfg, pre, m, post) && |pre.log| <= k < |post.log| && post.log[k].TellsOfAccess()
    ensures m.Handled? && (m.call.Access? || m.call.Resolve?) && pre.gateOpen
    ensures AccessesEarned(pre, m.call, post) && !Silently(pre.log, post.log)
  {
    if m.Handled? && pre.gateOpen {
      match m.call
      case Submit(_, _, _, _, _, _, _, _, _, _, _) => SubmitTellsNot(cfg, pre, m.call, m.out, post);
      case Approve(_, _, _) => ApproveTellsNot(cfg, pre, m.call, m.out, post);
      case Deny(id) => CloseTellsNot(cfg, pre, id, "", RequestDenied, m.out, post);
      case Cancel(id, agent) => CloseTellsNot(cfg, pre, id, agent, RequestCancelledByAgent, m.out, post);
      case Access(_, _, _, _, _, _) =>
      case Resolve(_, _, _, _, _, _, _, _) =>
    }
  }

  lemma SilentBehind(log: seq<AuditEvent>, e: AuditEvent, log': seq<AuditEvent>)
    requires Silently(log + [e], log') && !e.TellsOfAccess()
    ensures log <= log' && forall k | |log| <= k < |log'| :: !log'[k].TellsOfAccess()
  {
    assert log'[|log|] == (log + [e])[|log|];
  }

  lemma CommitTellsNot(cfg: Config, pre: View, post: View, world: World, e: AuditEvent)
    requires Commits(cfg, pre, post, world, e) && !e.TellsOfAccess()
    ensures forall k | |pre.log| <= k < |post.log| :: !post.log[k].TellsOfAccess()
  {
    SilentBehind(pre.log, e, post.log);
  }

  lemma LossTellsNot(cfg: Config, pre: View, post: View, kind: EventKind, r: LeaseRequest, token: string)
    requires LosesEvent(cfg, pre, post, kind, r, token) && !kind.SecretAccessStarted? && !kind.SecretAccess?
    ensures forall k | |pre.log| <= k < |post.log| :: !post.log[k].TellsOfAccess()
  {
    if !Silently(pre.log, post.log) {
      var at :| Silently(pre.log + [EventAbout(kind, at, r, token)], post.log);
      SilentBehind(pre.log, EventAbout(kind, at, r, token), post.log);
    }
  }

  lemma SubmitTellsNot(cfg: Config, pre: View, c: Call, out: Outcome, post: View)
    requires c.Submit? && SubmitStep(cfg, pre, c, out, post)
    ensures forall k | |pre.log| <= k < |post.log| :: !post.log[k].TellsOfAccess()
  {
    if out.Created? {
      var r := out.request;
      var at :| Commits(cfg, pre, post, WithRequest(pre.mem, r), EventAbout(RequestCreated, at, r, ""));
      CommitTellsNot(cfg, pre, post, WithRequest(pre.mem, r), EventAbout(RequestCreated, at, r, ""));
    } else if out.Refused? && out.because.AuditUnavailable? {
      var now :| LosesEvent(cfg, pre, post, RequestCreated, NewRequest(c, now), "");
      LossTellsNot(cfg, pre, post, RequestCreated, NewRequest(c, now), "");
    } else if PolicyStep(cfg, pre, c, out, post) {
      PolicyStepIsIdle(cfg, pre, c, out, post);
    }
  }

  lemma ApproveTellsNot(cfg: Config, pre: View, c: Call, out: Outcome, post: View)
    requires c.Approve? && ApproveStep(cfg, pre, c, out, post)
    ensures forall k | |pre.log| <= k < |post.log| :: !post.log[k].TellsOfAccess()
  {
    if out.Granted? {
      var r := pre.mem.requests[c.requestID];
      var approved, at :|
        Commits(cfg, pre, post, ApprovedWorld(pre.mem, c, approved), EventAbout(RequestApproved, at, r, c.newToken));
      CommitTellsNot(cfg, pre, post, ApprovedWorld(pre.mem, c, approved), EventAbout(RequestApproved, at, r, c.newToken));
    } else if out.Refused? && out.because.AuditUnavailable? {
      LossTellsNot(cfg, pre, post, RequestApproved, pre.mem.requests[c.requestID], c.newToken);
    }
  }

  lemma CloseTellsNot(cfg: Config, pre: View, id: string, byAgent: string, kind: EventKind, out: Outcome, post: View)
    requires CloseStep(cfg, pre, id, byAgent, kind, out, post) && !kind.SecretAccessStarted? && !kind.SecretAccess?
    ensures forall k | |pre.log| <= k < |post.log| :: !post.log[k].TellsOfAccess()
  {
    if out.Closed? {
      var r := pre.mem.requests[id];
      var at :| Commits(cfg, pre, post, WithDecision(pre.mem, id, Denied), EventAbout(kind, at, r, ""));
      CommitTellsNot(cfg, pre, post, WithDecision(pre.mem, id, Denied), EventAbout(kind, at, r, ""));
    } else if out.Refused? && out.because.AuditUnavailable? {
      LossTellsNot(cfg, pre, post, kind, pre.mem.requests[id], "");
    }
  }

  /**
   What call `j` did with `secret`, looked at at `now`, was earned: request `s` asked for the secret, and it
   was approved by call `a` at instant `approved`; `j` is of the same agent, if it names one, from the same
   command and directory, for that secret, and within the minutes of the approval.
   */
  ghost predicate EarnedBy(cfg: Config, views: seq<View>, moments: seq<Moment>, secret: string,
                           s: nat, a: nat, j: nat, approved: int, now: int)
    requires j < |moments| < |views|
  {
    && s < a < j && moments[s].Handled? && moments[a].Handled? && moments[j].Handled?
    && moments[s].call.Submit? && moments[a].call.Approve? && (moments[j].call.Access? || moments[j].call.Resolve?)
    && var q, p, c := moments[s].call, moments[a].call, moments[j].call;
    && p.requestID == q.newID && c.leaseToken == p.newToken
    && secret in q.secrets
    && (if c.Access? then secret == c.secret else exists n | n in c.names :: TrimSpace(n) == secret)
    && (c.caller != "" ==> q.agentID == c.caller)
    && (q.commandFingerprint != "" ==> q.commandFingerprint == c.cmdFingerprint)
    && (q.workdirFingerprint != "" ==> q.workdirFingerprint == c.wdFingerprint)
    && cfg.policy.minTTLMinutes <= Minutes(p, q) <= cfg.policy.maxTTLMinutes
    && views[a].clock <= approved <= views[a + 1].clock
    && views[j].clock <= now < approved + Minutes(p, q) * MINUTE
  }

  lemma CoveredIsEarned(cfg: Config, views: seq<View>, moments: seq<Moment>, j: nat, secret: string, now: int)
    returns (s: nat, a: nat, approved: int, at: int)
    requires IsRun(cfg, views, moments) && j < |moments| && moments[j].Handled? && views[j].clock <= now
    requires moments[j].call.Access? || moments[j].call.Resolve?
    requires
      var c := moments[j].call;
      && c.leaseToken in views[j].mem.leases
      && LeaseCovers(views[j].mem.leases[c.leaseToken], c.caller, c.cmdFingerprint, c.wdFingerprint, secret, now)
      && (if c.Access? then secret == c.secret else exists n | n in c.names :: TrimSpace(n) == secret)
    ensures EarnedBy(cfg, views, moments, secret, s, a, j, approved, now)
    ensures
      var q, p, l := moments[s].call, moments[a].call, views[j].mem.leases[moments[j].call.leaseToken];
      && l.agentID == q.agentID && l.taskID == q.taskID && l.requestID == q.newID && l.token == p.newToken
      && approved <= at && |views[a].log| < |views[j].log|
      && views[j].log[|views[a].log|] == AuditEvent(RequestApproved, at, q.agentID, q.taskID, q.newID, p.newToken, "")
  {
    s, a, approved, at := LeaseStory(cfg, views, moments, j, moments[j].call.leaseToken);
  }

  lemma NewAccessIsEarned(cfg: Config, views: seq<View>, moments: seq<Moment>, j: nat, k: nat)
    returns (s: nat, a: nat, approved: int, now: int)
    requires IsRun(cfg, views, moments) && j < |moments| && |views[j].log| <= k < |views[j + 1].log|
    requires views[j + 1].log[k].kind in {SecretAccessStarted, SecretAccess}
    ensures EarnedBy(cfg, views, moments, views[j + 1].log[k].secret, s, a, j, approved, now)
    ensures
      var q, p, e := moments[s].call, moments[a].call, views[j + 1].log[k];
      now <= e.timestamp && e == AuditEvent(e.kind, e.timestamp, q.agentID, q.taskID, q.newID, p.newToken, e.secret)
  {
    assert Next(cfg, views[j], moments[j], views[j + 1]);
    now := AccessFromCall(cfg, views[j], moments[j], views[j + 1], k);
    var at;
    s, a, approved, at := CoveredIsEarned(cfg, views, moments, j, views[j + 1].log[k].secret, now);
  }

  /** The step that logged event `k`. */
  lemma {:induction false} LoggedByStep(views: seq<View>, moments: seq<Moment>, i: nat, k: nat) returns (j: nat)
    requires AddsUp(views, moments) && i < |views| && |views[0].log| <= k < |views[i].log|
    ensures j < i && |views[j].log| <= k < |views[j + 1].log| && views[j + 1].log[k] == views[i].log[k]
  {
    if i == 0 {
      assert false;
    } else if k < |views[i - 1].log| {
      assert Adds(views[i - 1], moments[i - 1], views[i - 1 + 1]);
      j := LoggedByStep(views, moments, i - 1, k);
    } else {
      j := i - 1;
    }
  }

  lemma NotFromTheStart(cfg: Config, views: seq<View>, moments: seq<Moment>, i: nat, k: nat)
    requires IsRun(cfg, views, moments) && AddsUp(views, moments) && i < |views| && k < |views[i].log|
    requires views[i].log[k].kind in {SecretAccessStarted, SecretAccess}
    ensures |views[0].log| <= k
  {
    LogGrowsAlong(views, moments, 0, i);
    if k < |views[0].log| {
      assert views[0].log[k].TellsOfAccess();
    }
  }

  /** Nothing is in the audit log as accessed, or as about to be, that was not earned; the event names who and what. */
  lemma LoggedAccessIsEarned(cfg: Config, views: seq<View>, moments: seq<Moment>, i: nat, k: nat)
    returns (s: nat, a: nat, j: nat, approved: int, now: int)
    requires IsRun(cfg, views, moments) && i < |views| && k < |views[i].log|
    requires views[i].log[k].kind in {SecretAccessStarted, SecretAccess}
    ensures j < i && |views[j].log| <= k < |views[j + 1].log|
    ensures EarnedBy(cfg, views, moments, views[i].log[k].secret, s, a, j, approved, now)
    ensures
      var q, p, e := moments[s].call, moments[a].call, views[i].log[k];
      now <= e.timestamp && e == AuditEvent(e.kind, e.timestamp, q.agentID, q.taskID, q.newID, p.newToken, e.secret)
  {
    RunAdds(cfg, views, moments);
    NotFromTheStart(cfg, views, moments, i, k);
    j := LoggedByStep(views, moments, i, k);
    s, a, approved, now := NewAccessIsEarned(cfg, views, moments, j, k);
  }

  /**
   Every value that leaves the broker was earned like that, by a call that looked at the lease first; and
   the start and the completion of the access are in the audit log in full before the value leaves, each
   once, as is the approval.
   */
  lemma ReleaseIsAuthorised(cfg: Config, views: seq<View>, moments: seq<Moment>, j: nat, secret: string)
    returns (s: nat, a: nat, approved: int, now: int, started: int, done: int)
    requires IsRun(cfg, views, moments) && j < |moments|
    requires moments[j].Handled? && moments[j].out.Released? && secret in moments[j].out.values
    ensures EarnedBy(cfg, views, moments, secret, s, a, j, approved, now)
    ensures
      var q, p, log, log' := moments[s].call, moments[a].call, views[j].log, views[j + 1].log;
      && |log| <= started < done < |log'| && now <= log'[started].timestamp <= log'[done].timestamp
      && log'[started]
         == AuditEvent(SecretAccessStarted, log'[started].timestamp, q.agentID, q.taskID, q.newID, p.newToken, secret)
      && log'[done] == AuditEvent(SecretAccess, log'[done].timestamp, q.agentID, q.taskID, q.newID, p.newToken, secret)
      && NothingTwice(log, log')
      && exists k | 0 <= k < |log| ::
           && log[k] == AuditEvent(RequestApproved, log[k].timestamp, q.agentID, q.taskID, q.newID, p.newToken, "")
           && approved <= log[k].timestamp
  {
    var pre, c, values, post := views[j], moments[j].call, moments[j].out.values, views[j + 1];
    assert Next(cfg, pre, moments[j], post);
    ReleasedByCall(cfg, pre, c, values, post);
    var at;
    if c.Access? {
      now, started, done := AccessMeans(cfg, pre, c, values, post);
    } else {
      now, started, done := ResolveMeans(cfg, pre, c, values, post, secret);
    }
    s, a, approved, at := CoveredIsEarned(cfg, views, moments, j, secret, now);
    assert views[j].log[|views[a].log|].timestamp == at;
  }

  lemma ReleasedByCall(cfg: Config, pre: View, c: Call, values: map<string, string>, post: View)
    requires Next(cfg, pre, Handled(c, Released(values)), post)
    ensures c.Access? || c.Resolve?
  {
  }
}
