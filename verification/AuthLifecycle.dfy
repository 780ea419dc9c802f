/** The auth lifecycle: mutate the store, persist it, audit the event, or restore (`internal/app/auth_lifecycle.go`). */
module AuthLifecycle {
  import opened Prelude
  import opened Text
  import opened Time
  import opened Durability
  import opened AuthModel
  import opened AuthStore

  datatype AuthView = AuthView(mem: Tables, disk: Tables, open: bool, log: seq<AuditEvent>, clock: int)

  /** The clock moved from `pre` to `post` past the readings of the turn, and the log grew by no request event. */
  ghost predicate Passes(pre: AuthView, u: Turn, post: AuthView) {
    && pre.clock <= u.now <= u.later <= post.clock
    && Quietly(pre.log, post.log)
  }

  /** `e` tells of a success, in its kind, its agent and its time. */
  predicate TellsOfSuccess(e: AuditEvent, u: Turn, answer: Answer) {
    match answer
    case Bootstrapped(b) => e == AuditEvent(AuthBootstrapCreated, u.now, b.agentID, "", "", "", "")
    case Paired(g) => e == AuditEvent(AuthPairCompleted, u.later, g.agentID, "", "", "", "")
    case Minted(s) => e == AuditEvent(AuthSessionMinted, u.now, s.agentID, "", "", "", "")
    case RevocationDone => u.later <= e.timestamp && e == AuditEvent(AuthRevoked, e.timestamp, "", "", "", "", "")
    case CleanedUp => u.later <= e.timestamp && e == AuditEvent(EventKind.AuthCleanup, e.timestamp, "", "", "", "", "")
    case _ => false
  }

  /** Trouble with the disk, or the event whose write then failed. */
  predicate TellsOfFailure(e: AuditEvent, u: Turn, success: Answer) {
    e.kind.DurabilityPersistFailed? || e.kind.DurabilityGateClosed? || (u.persisted && TellsOfSuccess(e, u, success))
  }

  /** What a call logs: one event of its success; at best effort that a pairing was denied; trouble; or nothing. */
  ghost predicate AuthLogs(cfg: Lifetimes, pre: AuthView, u: Turn, answer: Answer, post: AuthView) {
    if Records(cfg, pre.mem, u) then
      if u.persisted && u.audited then |post.log| == |pre.log| + 1 && pre.log <= post.log && TellsOfSuccess(post.log[|pre.log|], u, answer)
      else
        && pre.log <= post.log
        && forall i | |pre.log| <= i < |post.log| :: TellsOfFailure(post.log[i], u, Attempt(cfg, pre.mem, u.call, u.now, u.later).1)
    else
      || post.log == pre.log
      || (u.call.CompletePairing? && answer.Rejected? && post.log == pre.log + [AuditEvent(AuthPairDenied, u.later, "", "", "", "", "")])
  }

  /**
   One call: memory, gate and answer are those of `Perform`. The snapshot follows what was recorded;
   after a failure it holds the old tables, or those that were being recorded, with the gate closed.
   */
  ghost predicate AuthEffect(cfg: Lifetimes, persists: bool, pre: AuthView, u: Turn, answer: Answer, post: AuthView) {
    && !u.shut
    && Passes(pre, u, post)
    && (Machine(post.mem, post.open), answer) == Perform(cfg, Machine(pre.mem, pre.open), u)
    && (if !Records(cfg, pre.mem, u) then post.disk == pre.disk
        else if u.persisted && u.audited then post.disk == if persists then post.mem else pre.disk
        else post.disk in {pre.disk, pre.mem, Attempt(cfg, pre.mem, u.call, u.now, u.later).0})
    && (!persists ==> post.disk == pre.disk)
    && AuthLogs(cfg, pre, u, answer, post)
  }

  /** One handler: refused outright, if it looks at the gate, once the gate is closed. */
  ghost predicate AuthStep(cfg: Lifetimes, persists: bool, pre: AuthView, u: Turn, answer: Answer, post: AuthView) {
    if u.call.Gated() && !pre.open
    then answer == Rejected(GateClosed) && !u.shut && Passes(pre, u, post) && post == pre.(clock := post.clock)
    else AuthEffect(cfg, persists, pre, u, answer, post)
  }

  /** Nothing was logged but trouble with the disk. */
  ghost predicate OnlyTrouble(log: seq<AuditEvent>, log': seq<AuditEvent>) {
    && log <= log'
    && forall i | |log| <= i < |log'| :: log'[i].kind.DurabilityPersistFailed? || log'[i].kind.DurabilityGateClosed?
  }

  lemma RecordLogs(log: seq<AuditEvent>, e: AuditEvent, log': seq<AuditEvent>, u: Turn, success: Answer)
    requires TellsOfSuccess(e, u, success)
    requires if u.persisted && u.audited then log' == log + [e]
             else OnlyTrouble(log, log') || (u.persisted && OnlyTrouble(log + [e], log'))
    ensures Quietly(log, log')
    ensures u.persisted && u.audited ==> |log'| == |log| + 1 && log'[|log|] == e
    ensures !(u.persisted && u.audited) ==> forall i | |log| <= i < |log'| :: TellsOfFailure(log'[i], u, success)
  {
    if u.persisted && !u.audited && !OnlyTrouble(log, log') {
      assert log'[|log|] == (log + [e])[|log|];
    }
  }

  /** What `Record` leaves behind is the effect of the call that led to `mid`. */
  lemma RecordHasEffect(cfg: Lifetimes, persists: bool, pre: AuthView, u: Turn, mid: Tables, success: Answer, e: AuditEvent, post: AuthView)
    requires !u.shut && pre.clock <= u.now <= u.later <= post.clock && (u.call.CleanupPass? ==> mid != pre.mem)
    requires Attempt(cfg, pre.mem, u.call, u.now, u.later) == (mid, success)
    requires !success.Rejected? && !success.Authenticated? && TellsOfSuccess(e, u, success)
    requires u.persisted && u.audited ==>
      post.mem == mid && post.open == pre.open && post.disk == (if persists then mid else pre.disk) && post.log == pre.log + [e]
    requires !(u.persisted && u.audited) ==>
      && post.mem == pre.mem && !post.open && post.disk in {pre.disk, pre.mem, mid}
      && (OnlyTrouble(pre.log, post.log) || (u.persisted && OnlyTrouble(pre.log + [e], post.log)))
    requires !persists ==> post.disk == pre.disk
    ensures AuthEffect(cfg, persists, pre, u, if u.persisted && u.audited then success else Rejected(Unrecorded), post)
  {
    RecordLogs(pre.log, e, post.log, u, success);
  }

  lemma PairingDenied(cfg: Lifetimes, persists: bool, pre: AuthView, u: Turn, reason: Reason, post: AuthView)
    requires !u.shut && Passes(pre, u, post) && post == pre.(log := post.log, clock := post.clock)
    requires u.call.CompletePairing? && TrimSpace(u.call.token) != "" && TrimSpace(u.call.containerID) != ""
    requires BootstrapProblem(pre.mem, u.call.token, u.call.containerID, u.now) == Some(reason)
    requires post.log == pre.log || post.log == pre.log + [AuditEvent(AuthPairDenied, u.later, "", "", "", "", "")]
    ensures AuthEffect(cfg, persists, pre, u, Rejected(reason), post)
  {
  }

  lemma PairingAttempt(cfg: Lifetimes, t: Tables, c: AuthCall, now: int, later: int)
    requires c.CompletePairing? && TrimSpace(c.token) != "" && TrimSpace(c.containerID) != ""
    requires BootstrapProblem(t, c.token, c.containerID, now).None?
    ensures
      var g := NewGrant(cfg, c.newGrantID, t.bootstrap[c.token].agentID, c.containerID, later);
      Attempt(cfg, t, c, now, later) ==
      (Tables(t.bootstrap[c.token := t.bootstrap[c.token].(used := true)], t.grants[c.newGrantID := g], t.sessions), Paired(g))
  {
  }

  class Lifecycle {
    const cfg: Lifetimes
    const persists: bool
    const store: Store
    const gate: DurabilityGate
    var disk: Tables

    constructor (cfg: Lifetimes, persists: bool, store: Store, gate: DurabilityGate)
      ensures this.cfg == cfg && this.persists == persists && this.store == store && this.gate == gate
      ensures disk == store.Contents()
    {
      this.cfg, this.persists, this.store, this.gate := cfg, persists, store, gate;
      disk := Tables(store.bootstrap, store.grants, store.sessions);
    }

    ghost function Observed(): AuthView
      reads this, store, gate, gate.sink, gate.clock
    {
      AuthView(store.Contents(), disk, !gate.closed, gate.sink.log, gate.clock.time)
    }

    /** Saves the tables; a failure closes the gate and leaves the old or, after a late sync error, the new file. */
    method Persist() returns (ok: bool)
      modifies this`disk, gate, gate.sink, gate.clock
      ensures ok ==> disk == (if persists then store.Contents() else old(disk))
      ensures ok ==> gate.closed == old(gate.closed) && gate.sink.log == old(gate.sink.log)
      ensures !ok ==> persists && gate.closed && disk in {old(disk), store.Contents()}
      ensures OnlyTrouble(old(gate.sink.log), gate.sink.log)
      ensures old(gate.clock.time) <= gate.clock.time
      ensures old(gate.closed) ==> gate.closed
    {
      if !persists {
        return true;
      }
      ok := *;
      var renamed: bool := *;
      if ok || renamed {
        disk := Tables(store.bootstrap, store.grants, store.sessions);
      }
      if !ok {
        gate.CloseDurabilityGate(AuthStoreState);
      }
    }

    /**
     The tail of every mutation: persist, then audit; if either fails, restore the snapshot taken
     before the mutation and persist that.
     */
    method Record(event: AuditEvent, snapshot: Tables) returns (persisted: bool, audited: bool)
      requires !event.ChangesRequests()
      modifies this`disk, store, gate, gate.sink, gate.clock
      ensures persisted && audited ==>
        && store.Contents() == old(store.Contents()) && gate.closed == old(gate.closed)
        && disk == if persists then store.Contents() else old(disk)
      ensures !(persisted && audited) ==>
        && store.Contents() == snapshot && gate.closed
        && disk in {old(disk), snapshot, old(store.Contents())}
      ensures !persists ==> disk == old(disk)
      ensures persisted && audited ==> gate.sink.log == old(gate.sink.log) + [event]
      ensures !persisted ==> OnlyTrouble(old(gate.sink.log), gate.sink.log)
      ensures persisted && !audited ==>
        OnlyTrouble(old(gate.sink.log), gate.sink.log) || OnlyTrouble(old(gate.sink.log) + [event], gate.sink.log)
      ensures old(gate.clock.time) <= gate.clock.time
    {
      audited := false;
      persisted := Persist();
      if persisted {
        audited := gate.AuditCritical(event);
      }
      if !(persisted && audited) {
        store.Restore(snapshot);
        var _ := Persist();
      }
    }

    /** `Record` at the end of a call that has done its work in memory: the answer, and the effect since `pre`. */
    method Conclude(event: AuditEvent, snapshot: Tables, success: Answer, ghost pre: AuthView, ghost u: Turn)
      returns (answer: Answer, ghost u': Turn)
      requires !u.shut && snapshot == pre.mem && disk == pre.disk && gate.sink.log == pre.log
      requires pre.clock <= u.now <= u.later <= gate.clock.time && pre.open == !gate.closed
      requires TellsOfSuccess(event, u, success)
      requires Attempt(cfg, snapshot, u.call, u.now, u.later) == (store.Contents(), success)
      requires !success.Rejected? && !success.Authenticated? && (u.call.CleanupPass? ==> store.Contents() != snapshot)
      modifies this`disk, store, gate, gate.sink, gate.clock
      ensures u'.call == u.call
      ensures AuthEffect(cfg, persists, pre, u', answer, Observed())
    {
      ghost var mid := store.Contents();
      var persisted, audited := Record(event, snapshot);
      answer := if persisted && audited then success else Rejected(Unrecorded);
      u' := u.(persisted := persisted, audited := audited);
      RecordHasEffect(cfg, persists, pre, u', mid, success, event, Observed());
    }

    method CreateBootstrap(agentID: string, containerID: string, newToken: string) returns (answer: Answer, ghost u: Turn)
      modifies this`disk, store, gate, gate.sink, gate.clock
      ensures u.call == AuthCall.CreateBootstrap(agentID, containerID, newToken)
      ensures AuthEffect(cfg, persists, old(Observed()), u, answer, Observed())
    {
      var now := gate.clock.Now();
      u := Turn(AuthCall.CreateBootstrap(agentID, containerID, newToken), now, now, true, true, false);
      if TrimSpace(agentID) == "" || TrimSpace(containerID) == "" {
        answer := Rejected(MissingField);
        return;
      }
      var snapshot := store.Snapshot();
      var t := BootstrapToken(newToken, agentID, containerID, now, now + cfg.bootstrapTokenTTLSeconds * SECOND, false);
      store.SaveBootstrap(t);
      answer, u := Conclude(AuditEvent(AuthBootstrapCreated, now, agentID, "", "", "", ""), snapshot, Bootstrapped(t), old(Observed()), u);
    }

    method CompletePairing(token: string, containerID: string, newGrantID: string) returns (answer: Answer, ghost u: Turn)
      modifies this`disk, store, gate, gate.sink, gate.clock
      ensures u.call == AuthCall.CompletePairing(token, containerID, newGrantID)
      ensures AuthEffect(cfg, persists, old(Observed()), u, answer, Observed())
    {
      var now := gate.clock.Now();
      u := Turn(AuthCall.CompletePairing(token, containerID, newGrantID), now, now, true, true, false);
      if TrimSpace(token) == "" || TrimSpace(containerID) == "" {
        answer := Rejected(MissingField);
        return;
      }
      var snapshot := store.Snapshot();
      var consumed := store.ConsumeBootstrap(token, containerID, now);
      var later := gate.clock.Now();
      u := u.(later := later);
      if consumed.Err? {
        var _ := gate.sink.Write(SystemEvent(AuthPairDenied, later));
        answer := Rejected(consumed.error);
        PairingDenied(cfg, persists, old(Observed()), u, consumed.error, Observed());
        return;
      }
      var g := PairingGrant(newGrantID, consumed.value.agentID, containerID, later, later,
                            later + cfg.grantIdleTimeoutMinutes * MINUTE, later + cfg.grantAbsoluteMaxMinutes * MINUTE, false);
      store.SaveGrant(g);
      PairingAttempt(cfg, snapshot, u.call, now, later);
      var event := AuditEvent(AuthPairCompleted, later, consumed.value.agentID, "", "", "", "");
      answer, u := Conclude(event, snapshot, Paired(g), old(Observed()), u);
    }

    method MintSession(grantID: string, newSession: string) returns (answer: Answer, ghost u: Turn)
      modifies this`disk, store, gate, gate.sink, gate.clock
      ensures u.call == AuthCall.MintSession(grantID, newSession)
      ensures AuthEffect(cfg, persists, old(Observed()), u, answer, Observed())
    {
      var now := gate.clock.Now();
      u := Turn(AuthCall.MintSession(grantID, newSession), now, now, true, true, false);
      if grantID !in store.grants {
        answer := Rejected(NotFound);
        return;
      }
      var g := store.grants[grantID];
      if g.revoked || !(now < g.idleExpiresAt) || !(now < g.absoluteExpiresAt) {
        answer := Rejected(GrantInactive);
        return;
      }
      var snapshot := store.Snapshot();
      g := g.(lastUsedAt := now, idleExpiresAt := now + cfg.grantIdleTimeoutMinutes * MINUTE);
      store.SaveGrant(g);
      var s := SessionToken(newSession, g.grantID, g.agentID, now, now + cfg.sessionTTLMinutes * MINUTE, false);
      store.SaveSession(s);
      answer, u := Conclude(AuditEvent(AuthSessionMinted, now, g.agentID, "", "", "", ""), snapshot, Minted(s), old(Observed()), u);
    }

    method Revoke(grantID: string, sessionID: string) returns (answer: Answer, ghost u: Turn)
      modifies this`disk, store, gate, gate.sink, gate.clock
      ensures u.call == AuthCall.Revoke(grantID, sessionID)
      ensures AuthEffect(cfg, persists, old(Observed()), u, answer, Observed())
    {
      var now := gate.clock.Now();
      u := Turn(AuthCall.Revoke(grantID, sessionID), now, now, true, true, false);
      if TrimSpace(grantID) == "" && TrimSpace(sessionID) == "" {
        answer := Rejected(MissingField);
        return;
      }
      var snapshot := store.Snapshot();
      if TrimSpace(grantID) != "" {
        var found := store.RevokeGrant(grantID);
        if !found {
          store.Restore(snapshot);
          answer := Rejected(NotFound);
          return;
        }
      }
      if TrimSpace(sessionID) != "" {
        var found := store.RevokeSession(sessionID);
        if !found {
          store.Restore(snapshot);
          answer := Rejected(NotFound);
          return;
        }
      }
      var at := gate.clock.Now();
      answer, u := Conclude(SystemEvent(AuthRevoked, at), snapshot, RevocationDone, old(Observed()), u);
    }

    /** `requireAgentSession`: the session, then its grant. */
    method Authenticate(token: string) returns (answer: Answer, ghost u: Turn)
      modifies gate.clock
      ensures u.call == AuthCall.Authenticate(token)
      ensures AuthEffect(cfg, persists, old(Observed()), u, answer, Observed())
    {
      var now := gate.clock.Now();
      u := Turn(AuthCall.Authenticate(token), now, now, true, true, false);
      if token == "" {
        return Rejected(MissingField), u;
      }
      var session := store.ValidateSession(token, now);
      if session.Err? {
        return Rejected(session.error), u;
      }
      var later := gate.clock.Now();
      u := u.(later := later);
      if session.value.grantID !in store.grants {
        return Rejected(NotFound), u;
      }
      var g := store.grants[session.value.grantID];
      if g.revoked || !(later < g.idleExpiresAt) || !(later < g.absoluteExpiresAt) {
        return Rejected(GrantInactive), u;
      }
      return Authenticated(session.value.agentID), u;
    }

    /** The background pass; it neither looks at the gate nor records anything when nothing changed. */
    method RunAuthCleanupPass() returns (answer: Answer, ghost u: Turn)
      modifies this`disk, store, gate, gate.sink, gate.clock
      ensures u.call == CleanupPass
      ensures AuthEffect(cfg, persists, old(Observed()), u, answer, Observed())
    {
      var snapshot := store.Snapshot();
      var now := gate.clock.Now();
      u := Turn(CleanupPass, now, now, true, true, false);
      var removedBootstrap, removedSessions, revokedGrants := store.CleanupExpired(now);
      if removedBootstrap + removedSessions + revokedGrants == 0 {
        return CleanedUp, u;
      }
      var at := gate.clock.Now();
      answer, u := Conclude(SystemEvent(AuthCleanup, at), snapshot, CleanedUp, old(Observed()), u);
    }

    /** The handlers, with their look at the gate. */
    method Handle(c: AuthCall) returns (answer: Answer, ghost u: Turn)
      modifies this`disk, store, gate, gate.sink, gate.clock
      ensures u.call == c
      ensures AuthStep(cfg, persists, old(Observed()), u, answer, Observed())
    {
      if c.Gated() && gate.closed {
        var now := gate.clock.Now();
        return Rejected(GateClosed), Turn(c, now, now, true, true, false);
      }
      match c
      case CreateBootstrap(agentID, containerID, newToken) => answer, u := CreateBootstrap(agentID, containerID, newToken);
      case CompletePairing(token, containerID, newGrantID) => answer, u := CompletePairing(token, containerID, newGrantID);
      case MintSession(grantID, newSession) => answer, u := MintSession(grantID, newSession);
      case Revoke(grantID, sessionID) => answer, u := Revoke(grantID, sessionID);
      case Authenticate(token) => answer, u := Authenticate(token);
      case CleanupPass => answer, u := RunAuthCleanupPass();
    }
  }
}
