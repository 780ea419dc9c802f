/** Properties of whole runs of the lease broker, whatever the disk and the audit sink do. */
module BrokerRuns {
  import opened Text
  import opened Time
  import opened Domain
  import opened RequestPolicy
  import opened Durability
  import opened Broker

  /** A handler call, or a stretch in which other parts of the daemon use the clock, sink and gate. */
  datatype Moment = Handled(call: Call, out: Outcome) | Meanwhile

  ghost predicate Next(cfg: Config, pre: View, m: Moment, post: View) {
    match m
    case Handled(call, out) => Admissible(pre, call) && Step(cfg, pre, call, out, post)
    case Meanwhile =>
      && post == pre.(secrets := post.secrets, gateOpen := post.gateOpen, log := post.log, clock := post.clock)
      && (post.gateOpen ==> pre.gateOpen)
      && Silently(pre.log, post.log)
      && pre.clock <= post.clock
  }

  ghost predicate Initial(v: View) {
    && v.mem == v.disk == World(map[], map[])
    && Silently([], v.log)
  }

  ghost predicate IsRun(cfg: Config, views: seq<View>, moments: seq<Moment>) {
    && |views| == |moments| + 1
    && Initial(views[0])
    && forall i | 0 <= i < |moments| :: Next(cfg, views[i], moments[i], views[i + 1])
  }

  // What a step can change in memory

  /** A change of memory together with the event that records it. */
  datatype Change =
    | Nothing
    | Creates(request: LeaseRequest, event: AuditEvent)
    | Grants(id: string, lease: Lease, event: AuditEvent)
    | Closes(id: string, event: AuditEvent)

  ghost predicate Applicable(w: World, ch: Change) {
    match ch
    case Nothing => true
    case Creates(r, _) => r.id !in w.requests && r.status.Pending?
    case Grants(id, l, _) => id in PendingIDs(w) && l.token !in w.leases && l.requestID == id
    case Closes(id, _) => id in PendingIDs(w)
  }

  ghost function Apply(w: World, ch: Change): World
    requires Applicable(w, ch)
  {
    match ch
    case Nothing => w
    case Creates(r, _) => WithRequest(w, r)
    case Grants(id, l, _) => WithLease(WithDecision(w, id, Approved), l)
    case Closes(id, _) => WithDecision(w, id, Denied)
  }

  /** The event names what changed. */
  ghost predicate EventFits(ch: Change) {
    match ch
    case Nothing => true
    case Creates(r, e) => e.kind.RequestCreated? && e.requestID == r.id
    case Grants(id, l, e) => e.kind.RequestApproved? && e.requestID == id && e.leaseToken == l.token
    case Closes(id, e) => (e.kind.RequestDenied? || e.kind.RequestCancelledByAgent?) && e.requestID == id
  }

  ghost function WithEvent(ch: Change, e: AuditEvent): Change {
    match ch
    case Nothing => Nothing
    case Creates(r, _) => Creates(r, e)
    case Grants(id, l, _) => Grants(id, l, e)
    case Closes(id, _) => Closes(id, e)
  }

  /** The event of a change that could have been made got into the log by a write that failed. */
  ghost predicate Strands(cfg: Config, pre: View, lost: Change, post: View) {
    && !cfg.cleanAudit && pre.gateOpen && !post.gateOpen
    && !lost.Nothing? && Applicable(pre.mem, lost) && EventFits(lost)
    && Quietly(pre.log + [lost.event], post.log)
  }

  /** The log says exactly what changed, or at worst tells of one change that was undone. */
  ghost predicate Recorded(cfg: Config, pre: View, ch: Change, post: View) {
    if ch.Nothing? then Quietly(pre.log, post.log) || exists lost :: Strands(cfg, pre, lost, post)
    else EventFits(ch) && Quietly(pre.log + [ch.event], post.log)
  }

  ghost predicate Justified(cfg: Config, pre: View, ch: Change, post: View) {
    match ch
    case Nothing => true
    case Creates(r, _) =>
      var t := cfg.throttle.Effective();
      && cfg.policy.ValidateRequest(r.ttlMinutes, r.secrets)
      && pre.clock <= r.createdAt <= post.clock
      && |PendingOf(pre.mem, TrimSpace(r.agentID))| < t.maxPendingPerAgent
      && exists now | now <= r.createdAt :: !CoolingDown(pre.mem, RequestKey(r), t.identicalRequestCooldown, now)
    case Grants(id, l, _) =>
      && id in pre.mem.requests
      && l == NewLease(pre.mem.requests[id], l.token, l.expiresAt)
    case Closes(_, _) => true
  }

  ghost predicate Changes(cfg: Config, pre: View, ch: Change, post: View) {
    && Applicable(pre.mem, ch)
    && post.mem == Apply(pre.mem, ch)
    && Recorded(cfg, pre, ch, post)
    && (post.gateOpen ==> pre.gateOpen)
    && Justified(cfg, pre, ch, post)
    && pre.clock <= post.clock
  }

  ghost predicate Mutating(m: Moment) {
    m.Handled? && (m.out.Created? || m.out.Granted? || m.out.Closed?)
  }

  lemma SubmitChanges(cfg: Config, pre: View, c: Call, out: Outcome, post: View) returns (ch: Change)
    requires c.Submit? && Admissible(pre, c) && SubmitStep(cfg, pre, c, out, post) && out.Created?
    ensures Changes(cfg, pre, ch, post) && ch.Creates? && ch.request == out.request && ch.request.id == c.newID
  {
    var r := out.request;
    var at :| r.createdAt <= at && Commits(cfg, pre, post, WithRequest(pre.mem, r), EventAbout(RequestCreated, at, r, ""));
    ch := Creates(r, EventAbout(RequestCreated, at, r, ""));
    assert RequestInput(r) == SubmitInput(c);
    var cooldown := cfg.throttle.Effective().identicalRequestCooldown;
    var now :| pre.clock <= now <= r.createdAt && !CoolingDown(pre.mem, EquivalenceKey(SubmitInput(c)), cooldown, now);
    assert !CoolingDown(pre.mem, RequestKey(r), cooldown, now);
  }

  lemma ApprovedAt(cfg: Config, pre: View, c: Call, l: Lease, post: View) returns (approved: int, at: int)
    requires c.Approve? && ApproveStep(cfg, pre, c, Granted(l), post)
    ensures c.requestID in pre.mem.requests && pre.mem.requests[c.requestID].status.Pending? && pre.clock <= approved <= at
    ensures
      var r := pre.mem.requests[c.requestID];
      && l == NewLease(r, c.newToken, approved + EffectiveTTL(r, c.ttlMinutes) * MINUTE)
      && Commits(cfg, pre, post, ApprovedWorld(pre.mem, c, approved), EventAbout(RequestApproved, at, r, c.newToken))
      && ThenEnvPath(pre.log, post.log, r, EnvPathConfirmed)
      && cfg.policy.ValidateRequest(EffectiveTTL(r, c.ttlMinutes), r.secrets)
  {
    var r := pre.mem.requests[c.requestID];
    approved, at :| pre.clock <= approved <= at
      && l == NewLease(r, c.newToken, approved + EffectiveTTL(r, c.ttlMinutes) * MINUTE)
      && Commits(cfg, pre, post, ApprovedWorld(pre.mem, c, approved), EventAbout(RequestApproved, at, r, c.newToken));
  }

  lemma ApproveChanges(cfg: Config, pre: View, c: Call, out: Outcome, post: View) returns (ch: Change)
    requires WellKeyed(pre.mem)
    requires c.Approve? && Admissible(pre, c) && ApproveStep(cfg, pre, c, out, post) && out.Granted?
    ensures Changes(cfg, pre, ch, post) && ch.Grants? && ch.lease == out.lease && ch.lease.token == c.newToken
  {
    var r := pre.mem.requests[c.requestID];
    var approved, at := ApprovedAt(cfg, pre, c, out.lease, post);
    ch := Grants(c.requestID, out.lease, EventAbout(RequestApproved, at, r, c.newToken));
  }

  lemma CloseChanges(cfg: Config, pre: View, id: string, byAgent: string, kind: EventKind, out: Outcome, post: View) returns (ch: Change)
    requires WellKeyed(pre.mem) && (kind.RequestDenied? || kind.RequestCancelledByAgent?)
    requires CloseStep(cfg, pre, id, byAgent, kind, out, post) && out.Closed?
    ensures Changes(cfg, pre, ch, post) && ch.Closes?
  {
    var r := pre.mem.requests[id];
    var at :| Commits(cfg, pre, post, WithDecision(pre.mem, id, Denied), EventAbout(kind, at, r, ""));
    ch := Closes(id, EventAbout(kind, at, r, ""));
  }

  lemma QuietUnlessSuccess(cfg: Config, pre: View, m: Moment, post: View)
    requires Next(cfg, pre, m, post) && !Mutating(m) && WellKeyed(pre.mem)
    ensures Changes(cfg, pre, Nothing, post)
  {
    if m.Handled? && pre.gateOpen {
      match m.call
      case Submit(_, _, _, _, _, _, _, _, _, _, _) => SubmitQuiet(cfg, pre, m.call, m.out, post);
      case Approve(_, _, _) => ApproveQuiet(cfg, pre, m.call, m.out, post);
      case Deny(id) => CloseQuiet(cfg, pre, id, "", RequestDenied, m.out, post);
      case Cancel(id, agent) => CloseQuiet(cfg, pre, id, agent, RequestCancelledByAgent, m.out, post);
      case Access(_, _, _, _, _, _) =>
      case Resolve(_, _, _, _, _, _, _, _) =>
    }
  }

  /** An event that a rollback loses is that of a change that could have been made. */
  lemma LostEventStrands(cfg: Config, pre: View, post: View, kind: EventKind, r: LeaseRequest, token: string, ch: Change)
    requires LosesEvent(cfg, pre, post, kind, r, token) && pre.gateOpen && !post.gateOpen
    requires !ch.Nothing? && Applicable(pre.mem, ch)
    requires forall at :: EventFits(WithEvent(ch, EventAbout(kind, at, r, token)))
    ensures Recorded(cfg, pre, Nothing, post)
  {
    if !Quietly(pre.log, post.log) {
      var at :| Quietly(pre.log + [EventAbout(kind, at, r, token)], post.log);
      assert Strands(cfg, pre, WithEvent(ch, EventAbout(kind, at, r, token)), post);
    }
  }

  lemma SubmitQuiet(cfg: Config, pre: View, c: Call, out: Outcome, post: View)
    requires c.Submit? && SubmitStep(cfg, pre, c, out, post) && !out.Created? && Admissible(pre, c) && pre.gateOpen
    ensures Changes(cfg, pre, Nothing, post)
  {
    if PolicyStep(cfg, pre, c, out, post) {
      PolicyStepIsIdle(cfg, pre, c, out, post);
    } else if out.Refused? && out.because.AuditUnavailable? {
      var now :| pre.clock <= now <= post.clock
        && RollsBack(cfg, pre, post, WithRequest(pre.mem, NewRequest(c, now)), out.because.rollbackFailed)
        && LosesEvent(cfg, pre, post, RequestCreated, NewRequest(c, now), "");
      var r := NewRequest(c, now);
      LostEventStrands(cfg, pre, post, RequestCreated, r, "", Creates(r, EventAbout(RequestCreated, now, r, "")));
    }
  }

  lemma ApproveQuiet(cfg: Config, pre: View, c: Call, out: Outcome, post: View)
    requires c.Approve? && ApproveStep(cfg, pre, c, out, post) && !out.Granted? && Admissible(pre, c) && pre.gateOpen
    requires WellKeyed(pre.mem)
    ensures Changes(cfg, pre, Nothing, post)
  {
    if out.Refused? && out.because.AuditUnavailable? {
      var r := pre.mem.requests[c.requestID];
      var ch := Grants(r.id, NewLease(r, c.newToken, 0), EventAbout(RequestApproved, 0, r, c.newToken));
      LostEventStrands(cfg, pre, post, RequestApproved, r, c.newToken, ch);
    }
  }

  lemma CloseQuiet(cfg: Config, pre: View, id: string, byAgent: string, kind: EventKind, out: Outcome, post: View)
    requires CloseStep(cfg, pre, id, byAgent, kind, out, post) && !out.Closed? && pre.gateOpen
    requires WellKeyed(pre.mem) && (kind.RequestDenied? || kind.RequestCancelledByAgent?)
    ensures Changes(cfg, pre, Nothing, post)
  {
    if out.Refused? && out.because.AuditUnavailable? {
      var r := pre.mem.requests[id];
      LostEventStrands(cfg, pre, post, kind, r, "", Closes(id, EventAbout(kind, 0, r, "")));
    }
  }

  /** Every step is one of four changes of memory, each recorded by its event and no other. */
  lemma StepChanges(cfg: Config, pre: View, m: Moment, post: View) returns (ch: Change)
    requires Next(cfg, pre, m, post) && WellKeyed(pre.mem)
    ensures Changes(cfg, pre, ch, post)
    ensures ch.Nothing? <==> !Mutating(m)
    ensures ch.Creates? ==> m.Handled? && m.call.Submit? && m.out == Created(ch.request) && m.call.newID == ch.request.id
    ensures ch.Grants? ==> m.Handled? && m.call.Approve? && m.out == Granted(ch.lease) && m.call.newToken == ch.lease.token
  {
    if !Mutating(m) {
      QuietUnlessSuccess(cfg, pre, m, post);
      ch := Nothing;
    } else {
      match m.call
      case Submit(_, _, _, _, _, _, _, _, _, _, _) => ch := SubmitChanges(cfg, pre, m.call, m.out, post);
      case Approve(_, _, _) => ch := ApproveChanges(cfg, pre, m.call, m.out, post);
      case Deny(id) => ch := CloseChanges(cfg, pre, id, "", RequestDenied, m.out, post);
      case Cancel(id, agent) => ch := CloseChanges(cfg, pre, id, agent, RequestCancelledByAgent, m.out, post);
      case Access(_, _, _, _, _, _) => assert false;
      case Resolve(_, _, _, _, _, _, _, _) => assert false;
    }
  }

  // Replaying the audit log

  /** The statuses of requests, and for each lease token its request. */
  datatype Ledger = Ledger(statuses: map<string, RequestStatus>, tokens: map<string, string>)

  function ReplayEvent(l: Ledger, e: AuditEvent): Ledger {
    match e.kind
    case RequestCreated => l.(statuses := l.statuses[e.requestID := Pending])
    case RequestApproved => Ledger(l.statuses[e.requestID := Approved], l.tokens[e.leaseToken := e.requestID])
    case RequestDenied => l.(statuses := l.statuses[e.requestID := Denied])
    case RequestCancelledByAgent => l.(statuses := l.statuses[e.requestID := Denied])
    case _ => l
  }

  function Replay(log: seq<AuditEvent>): Ledger {
    if log == [] then Ledger(map[], map[]) else ReplayEvent(Replay(log[..|log| - 1]), log[|log| - 1])
  }

  function LedgerOf(w: World): Ledger {
    Ledger(map id | id in w.requests :: w.requests[id].status, map tok | tok in w.leases :: w.leases[tok].requestID)
  }

  lemma {:induction false} ReplayQuiet(log: seq<AuditEvent>, log': seq<AuditEvent>)
    requires Quietly(log, log')
    ensures Replay(log') == Replay(log)
    decreases |log'|
  {
    if |log'| == |log| {
      assert log' == log;
    } else {
      ReplayQuiet(log, log'[..|log'| - 1]);
    }
  }

  lemma ReplayThenQuiet(log: seq<AuditEvent>, e: AuditEvent, log': seq<AuditEvent>)
    requires Quietly(log + [e], log')
    ensures Replay(log') == ReplayEvent(Replay(log), e)
  {
    ReplayQuiet(log + [e], log');
    assert (log + [e])[..|log|] == log;
  }

  /** The log tells of `lost` on top of what memory holds. */
  ghost predicate TellsMore(v: View, lost: Change) {
    !lost.Nothing? && Applicable(v.mem, lost) && Replay(v.log) == LedgerOf(Apply(v.mem, lost))
  }

  /**
   The log replays to the memory. Only behind a closed gate, and only if the sink may append and then
   fail, it may tell of one change more.
   */
  ghost predicate LogAgrees(cfg: Config, v: View) {
    || Replay(v.log) == LedgerOf(v.mem)
    || (!cfg.cleanAudit && !v.gateOpen && exists lost :: TellsMore(v, lost))
  }

  lemma LedgerCreated(w: World, r: LeaseRequest)
    requires r.id !in w.requests && r.status.Pending?
    ensures LedgerOf(WithRequest(w, r)) == LedgerOf(w).(statuses := LedgerOf(w).statuses[r.id := Pending])
  {
    assert LedgerOf(WithRequest(w, r)).statuses == LedgerOf(w).statuses[r.id := Pending];
  }

  lemma LedgerDecided(w: World, id: string, status: RequestStatus)
    requires id in w.requests
    ensures LedgerOf(WithDecision(w, id, status)) == LedgerOf(w).(statuses := LedgerOf(w).statuses[id := status])
  {
    assert LedgerOf(WithDecision(w, id, status)).statuses == LedgerOf(w).statuses[id := status];
  }

  lemma LedgerLeased(w: World, l: Lease)
    ensures LedgerOf(WithLease(w, l)) == LedgerOf(w).(tokens := LedgerOf(w).tokens[l.token := l.requestID])
  {
    assert LedgerOf(WithLease(w, l)).tokens == LedgerOf(w).tokens[l.token := l.requestID];
  }

  /** Replaying the event of a change changes the ledger as the change changes the store. */
  lemma LedgerAfter(w: World, ch: Change)
    requires !ch.Nothing? && Applicable(w, ch) && EventFits(ch)
    ensures LedgerOf(Apply(w, ch)) == ReplayEvent(LedgerOf(w), ch.event)
  {
    match ch
    case Creates(r, _) => LedgerCreated(w, r);
    case Grants(id, l, _) =>
      LedgerDecided(w, id, Approved);
      LedgerLeased(WithDecision(w, id, Approved), l);
    case Closes(id, _) => LedgerDecided(w, id, Denied);
  }

  lemma LogAgreesAfter(cfg: Config, pre: View, ch: Change, post: View)
    requires Changes(cfg, pre, ch, post) && LogAgrees(cfg, pre)
    requires !pre.gateOpen ==> post.mem == pre.mem && Quietly(pre.log, post.log)
    ensures LogAgrees(cfg, post)
  {
    if !pre.gateOpen || (ch.Nothing? && Quietly(pre.log, post.log)) {
      ReplayQuiet(pre.log, post.log);
      if Replay(pre.log) != LedgerOf(pre.mem) {
        var lost :| TellsMore(pre, lost);
        assert TellsMore(post, lost);
      }
    } else if ch.Nothing? {
      var lost :| Strands(cfg, pre, lost, post);
      ReplayThenQuiet(pre.log, lost.event, post.log);
      LedgerAfter(pre.mem, lost);
      assert TellsMore(post, lost);
    } else {
      ReplayThenQuiet(pre.log, ch.event, post.log);
      LedgerAfter(pre.mem, ch);
    }
  }

  lemma ClosedIsIdle(cfg: Config, pre: View, m: Moment, post: View)
    requires Next(cfg, pre, m, post) && !pre.gateOpen
    ensures post.mem == pre.mem && Quietly(pre.log, post.log)
  {
  }

  // Requests and leases

  /** Leases and approved requests correspond one to one, with equal particulars. */
  ghost predicate Matched(w: World) {
    && (forall tok | tok in w.leases :: LeaseFits(w, tok))
    && (forall tok, tok' | tok in w.leases && tok' in w.leases && w.leases[tok].requestID == w.leases[tok'].requestID :: tok == tok')
    && (forall id | id in w.requests && w.requests[id].status.Approved? :: HasLease(w, id))
  }

  ghost predicate LeaseFits(w: World, tok: string)
    requires tok in w.leases
  {
    var l := w.leases[tok];
    && l.requestID in w.requests
    && w.requests[l.requestID].status.Approved?
    && l == NewLease(w.requests[l.requestID], tok, l.expiresAt)
  }

  ghost predicate HasLease(w: World, id: string) {
    exists tok | tok in w.leases :: w.leases[tok].requestID == id
  }

  lemma LeasesFitAfter(w: World, ch: Change)
    requires WellKeyed(w) && Matched(w) && Applicable(w, ch)
    requires ch.Grants? ==> ch.lease == NewLease(w.requests[ch.id], ch.lease.token, ch.lease.expiresAt)
    ensures forall tok | tok in Apply(w, ch).leases :: LeaseFits(Apply(w, ch), tok)
  {
    var w' := Apply(w, ch);
    forall tok | tok in w'.leases ensures LeaseFits(w', tok) {
      if tok in w.leases {
        assert LeaseFits(w, tok);
      }
    }
  }

  lemma ApprovedHaveLeasesAfter(w: World, ch: Change)
    requires Matched(w) && Applicable(w, ch)
    ensures forall id | id in Apply(w, ch).requests && Apply(w, ch).requests[id].status.Approved? :: HasLease(Apply(w, ch), id)
  {
    var w' := Apply(w, ch);
    forall id | id in w'.requests && w'.requests[id].status.Approved? ensures HasLease(w', id) {
      if ch.Grants? && id == ch.id {
        assert w'.leases[ch.lease.token].requestID == id;
      } else {
        assert HasLease(w, id);
        var tok :| tok in w.leases && w.leases[tok].requestID == id;
        assert tok in w'.leases && w'.leases[tok].requestID == id;
      }
    }
  }

  /** Each change keeps leases and approved requests in correspondence. */
  lemma MatchedAfter(w: World, ch: Change)
    requires WellKeyed(w) && Matched(w) && Applicable(w, ch)
    requires ch.Grants? ==> ch.lease == NewLease(w.requests[ch.id], ch.lease.token, ch.lease.expiresAt)
    ensures WellKeyed(Apply(w, ch)) && Matched(Apply(w, ch))
  {
    var w' := Apply(w, ch);
    LeasesFitAfter(w, ch);
    ApprovedHaveLeasesAfter(w, ch);
    forall tok, tok' | tok in w'.leases && tok' in w'.leases && w'.leases[tok].requestID == w'.leases[tok'].requestID
      ensures tok == tok'
    {
      if tok in w.leases { assert LeaseFits(w, tok); }
      if tok' in w.leases { assert LeaseFits(w, tok'); }
    }
  }

  lemma LogGrows(cfg: Config, pre: View, ch: Change, post: View)
    requires Recorded(cfg, pre, ch, post)
    ensures pre.log <= post.log
  {
    if !ch.Nothing? {
      assert pre.log <= pre.log + [ch.event];
    } else if !Quietly(pre.log, post.log) {
      var lost :| Strands(cfg, pre, lost, post);
      assert pre.log <= pre.log + [lost.event];
    }
  }

  // The request policy

  ghost predicate Capped(cfg: Config, w: World) {
    forall agent :: |PendingOf(w, agent)| <= cfg.throttle.Effective().maxPendingPerAgent
  }

  lemma {:induction false} SubsetSize<T>(a: set<T>, b: set<T>)
    requires a <= b
    ensures |a| <= |b|
  {
    if a != {} {
      var x :| x in a;
      SubsetSize(a - {x}, b - {x});
    }
  }

  lemma CappedAfter(cfg: Config, pre: View, ch: Change, post: View)
    requires Changes(cfg, pre, ch, post) && Capped(cfg, pre.mem)
    ensures Capped(cfg, post.mem)
  {
    forall agent ensures |PendingOf(post.mem, agent)| <= cfg.throttle.Effective().maxPendingPerAgent {
      var before, after := PendingOf(pre.mem, agent), PendingOf(post.mem, agent);
      if ch.Creates? && BelongsTo(ch.request, agent) {
        assert after <= before + {ch.request.id};
        SubsetSize(after, before + {ch.request.id});
      } else {
        assert after <= before;
        SubsetSize(after, before);
      }
    }
  }

  /** Equivalent requests that are pending together were created at least the cooldown apart. */
  ghost predicate Spaced(cfg: Config, w: World) {
    var cooldown := cfg.throttle.Effective().identicalRequestCooldown;
    forall a, b | a in PendingIDs(w) && b in PendingIDs(w) && a != b && RequestKey(w.requests[a]) == RequestKey(w.requests[b]) ::
      Apart(w.requests[a], w.requests[b], cooldown)
  }

  predicate Apart(r: LeaseRequest, r': LeaseRequest, gap: int) {
    r.createdAt + gap <= r'.createdAt || r'.createdAt + gap <= r.createdAt
  }

  lemma SpacedAfter(cfg: Config, pre: View, ch: Change, post: View)
    requires Changes(cfg, pre, ch, post) && Spaced(cfg, pre.mem)
    ensures Spaced(cfg, post.mem)
  {
    forall a, b | a in PendingIDs(post.mem) && b in PendingIDs(post.mem) && a != b
                  && RequestKey(post.mem.requests[a]) == RequestKey(post.mem.requests[b])
      ensures Apart(post.mem.requests[a], post.mem.requests[b], cfg.throttle.Effective().identicalRequestCooldown)
    {
      PairApart(cfg, pre, ch, post, a, b);
    }
  }

  /** A pending request was pending before, as it is, or has just been created. */
  lemma PendingAfter(cfg: Config, pre: View, ch: Change, post: View, id: string)
    requires Changes(cfg, pre, ch, post) && id in PendingIDs(post.mem)
    ensures
      || (id in PendingIDs(pre.mem) && post.mem.requests[id] == pre.mem.requests[id])
      || (ch.Creates? && id == ch.request.id && post.mem.requests[id] == ch.request)
  {
  }

  lemma PairApart(cfg: Config, pre: View, ch: Change, post: View, a: string, b: string)
    requires Changes(cfg, pre, ch, post) && Spaced(cfg, pre.mem)
    requires a in PendingIDs(post.mem) && b in PendingIDs(post.mem) && a != b
    requires RequestKey(post.mem.requests[a]) == RequestKey(post.mem.requests[b])
    ensures Apart(post.mem.requests[a], post.mem.requests[b], cfg.throttle.Effective().identicalRequestCooldown)
  {
    PendingAfter(cfg, pre, ch, post, a);
    PendingAfter(cfg, pre, ch, post, b);
    if ch.Creates? && b == ch.request.id {
      NewRequestApart(cfg, pre, ch, post, a);
    } else if ch.Creates? && a == ch.request.id {
      NewRequestApart(cfg, pre, ch, post, b);
    }
  }

  lemma NewRequestApart(cfg: Config, pre: View, ch: Change, post: View, id: string)
    requires Changes(cfg, pre, ch, post) && ch.Creates?
    requires PendingEquivalent(pre.mem, RequestKey(ch.request), id)
    ensures Apart(pre.mem.requests[id], ch.request, cfg.throttle.Effective().identicalRequestCooldown)
  {
  }

  // The invariant of all runs

  ghost predicate Sane(cfg: Config, v: View) {
    && (forall id | id in v.mem.requests :: v.mem.requests[id].createdAt <= v.clock)
    && (forall id | id in v.mem.requests :: cfg.policy.ValidateRequest(v.mem.requests[id].ttlMinutes, v.mem.requests[id].secrets))
  }

  ghost predicate Inv(cfg: Config, v: View) {
    && WellKeyed(v.mem)
    && Matched(v.mem)
    && LogAgrees(cfg, v)
    && Capped(cfg, v.mem)
    && Spaced(cfg, v.mem)
    && Sane(cfg, v)
    && (cfg.persists && v.gateOpen ==> v.disk == v.mem)
  }

  lemma InitialInv(cfg: Config, v: View)
    requires Initial(v)
    ensures Inv(cfg, v)
  {
    ReplayQuiet([], v.log);
    assert forall agent :: PendingOf(v.mem, agent) == {};
  }

  lemma SaneAfter(cfg: Config, pre: View, ch: Change, post: View)
    requires Changes(cfg, pre, ch, post) && Sane(cfg, pre)
    ensures Sane(cfg, post)
  {
  }

  lemma SubmitSnapshot(cfg: Config, pre: View, c: Call, out: Outcome, post: View)
    requires c.Submit? && SubmitStep(cfg, pre, c, out, post) && cfg.persists && post.gateOpen && pre.disk == pre.mem
    ensures post.disk == post.mem
  {
    if PolicyStep(cfg, pre, c, out, post) {
      PolicyStepIsIdle(cfg, pre, c, out, post);
    }
  }

  lemma SnapshotAfter(cfg: Config, pre: View, m: Moment, post: View)
    requires Next(cfg, pre, m, post) && cfg.persists && WellKeyed(pre.mem)
    requires pre.gateOpen ==> pre.disk == pre.mem
    ensures post.gateOpen ==> post.disk == post.mem
  {
    if post.gateOpen && pre.gateOpen && m.Handled? {
      match m.call
      case Submit(_, _, _, _, _, _, _, _, _, _, _) => SubmitSnapshot(cfg, pre, m.call, m.out, post);
      case Approve(_, _, _) =>
      case Deny(_) =>
      case Cancel(_, _) =>
      case Access(_, _, _, _, _, _) =>
      case Resolve(_, _, _, _, _, _, _, _) =>
    }
  }

  lemma InvAfter(cfg: Config, pre: View, m: Moment, post: View)
    requires Next(cfg, pre, m, post) && Inv(cfg, pre)
    ensures Inv(cfg, post)
  {
    var ch := StepChanges(cfg, pre, m, post);
    MatchedAfter(pre.mem, ch);
    if !pre.gateOpen {
      ClosedIsIdle(cfg, pre, m, post);
    }
    LogAgreesAfter(cfg, pre, ch, post);
    CappedAfter(cfg, pre, ch, post);
    SpacedAfter(cfg, pre, ch, post);
    SaneAfter(cfg, pre, ch, post);
    if cfg.persists {
      SnapshotAfter(cfg, pre, m, post);
    }
  }

  lemma {:induction false} RunInv(cfg: Config, views: seq<View>, moments: seq<Moment>, i: nat)
    requires IsRun(cfg, views, moments) && i < |views|
    ensures Inv(cfg, views[i])
  {
    if i == 0 {
      InitialInv(cfg, views[0]);
    } else {
      RunInv(cfg, views, moments, i - 1);
      InvAfter(cfg, views[i - 1], moments[i - 1], views[i]);
    }
  }
}
