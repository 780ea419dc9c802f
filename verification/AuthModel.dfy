/**
 What each call of the auth lifecycle does to the three token tables and to the durability gate,
 given the clock readings it makes and the fate of its writes (`internal/app/auth_lifecycle.go`,
 `internal/auth/store.go`, `cmd/promptlockd/authz.go`, `cmd/promptlockd/auth_cleanup.go`).
 */
module AuthModel {
  import opened Prelude
  import opened Text
  import opened Time

  datatype BootstrapToken = BootstrapToken(
    token: string, agentID: string, containerID: string, createdAt: int, expiresAt: int, used: bool)
  {
    predicate Usable(now: int) {
      !used && now < expiresAt
    }
  }

  datatype PairingGrant = PairingGrant(
    grantID: string, agentID: string, containerID: string,
    createdAt: int, lastUsedAt: int, idleExpiresAt: int, absoluteExpiresAt: int, revoked: bool)
  {
    predicate Active(now: int) {
      !revoked && now < idleExpiresAt && now < absoluteExpiresAt
    }
  }

  datatype SessionToken = SessionToken(
    token: string, grantID: string, agentID: string, createdAt: int, expiresAt: int, revoked: bool)
  {
    predicate Live(now: int) {
      !revoked && now < expiresAt
    }
  }

  datatype Tables = Tables(
    bootstrap: map<string, BootstrapToken>,
    grants: map<string, PairingGrant>,
    sessions: map<string, SessionToken>)

  datatype Lifetimes = Lifetimes(
    bootstrapTokenTTLSeconds: int, grantIdleTimeoutMinutes: int, grantAbsoluteMaxMinutes: int, sessionTTLMinutes: int)

  datatype AuthCall =
    | CreateBootstrap(agentID: string, containerID: string, newToken: string)
    | CompletePairing(token: string, containerID: string, newGrantID: string)
    | MintSession(grantID: string, newSession: string)
    | Revoke(grantID: string, sessionID: string)
    | Authenticate(token: string)
    | CleanupPass
  {
    /** Handlers of these calls look at the durability gate first. */
    predicate Gated() {
      !Authenticate? && !CleanupPass?
    }
  }

  datatype Reason =
    | GateClosed
    | MissingField
    | NotFound
    | AlreadyUsed
    | ContainerMismatch
    | Expired
    | SessionRevoked
    | GrantInactive
    | Unrecorded

  datatype Answer =
    | Bootstrapped(bootstrapToken: BootstrapToken)
    | Paired(grant: PairingGrant)
    | Minted(session: SessionToken)
    | RevocationDone
    | Authenticated(agentID: string)
    | CleanedUp
    | Rejected(reason: Reason)

  /**
   What a call met: its clock readings, in order; whether the tables were persisted and the event
   was audited; and whether another part of the daemon closed the gate before it.
   */
  datatype Turn = Turn(call: AuthCall, now: int, later: int, persisted: bool, audited: bool, shut: bool)

  /** The tables in memory, and the durability gate. */
  datatype Machine = Machine(tables: Tables, open: bool)

  function NewBootstrap(cfg: Lifetimes, c: AuthCall, now: int): BootstrapToken
    requires c.CreateBootstrap?
  {
    BootstrapToken(c.newToken, c.agentID, c.containerID, now, now + cfg.bootstrapTokenTTLSeconds * SECOND, false)
  }

  function NewGrant(cfg: Lifetimes, id: string, agentID: string, containerID: string, now: int): PairingGrant {
    PairingGrant(id, agentID, containerID, now, now,
                 now + cfg.grantIdleTimeoutMinutes * MINUTE, now + cfg.grantAbsoluteMaxMinutes * MINUTE, false)
  }

  function Renewed(cfg: Lifetimes, g: PairingGrant, now: int): PairingGrant {
    g.(lastUsedAt := now, idleExpiresAt := now + cfg.grantIdleTimeoutMinutes * MINUTE)
  }

  function NewSession(cfg: Lifetimes, token: string, g: PairingGrant, now: int): SessionToken {
    SessionToken(token, g.grantID, g.agentID, now, now + cfg.sessionTTLMinutes * MINUTE, false)
  }

  /** Why a bootstrap token cannot be consumed, in the order in which that is checked. */
  function BootstrapProblem(t: Tables, token: string, containerID: string, now: int): Option<Reason> {
    if token !in t.bootstrap then Some(NotFound)
    else
      var b := t.bootstrap[token];
      if b.used then Some(AlreadyUsed)
      else if b.containerID != "" && containerID != b.containerID then Some(ContainerMismatch)
      else if now >= b.expiresAt then Some(Expired)
      else None
  }

  /** `Store.RevokeGrant` and `Store.RevokeSession`, each skipped for a blank name. */
  function RevokeBoth(t: Tables, grantID: string, sessionID: string): Option<Tables> {
    if TrimSpace(grantID) != "" && grantID !in t.grants then None
    else
      var t1 := if TrimSpace(grantID) == "" then t
                else t.(grants := t.grants[grantID := t.grants[grantID].(revoked := true)]);
      if TrimSpace(sessionID) == "" then Some(t1)
      else if sessionID !in t1.sessions then None
      else Some(t1.(sessions := t1.sessions[sessionID := t1.sessions[sessionID].(revoked := true)]))
  }

  function RevokeIfExpired(g: PairingGrant, now: int): PairingGrant {
    if !g.revoked && !g.Active(now) then g.(revoked := true) else g
  }

  /** `Store.CleanupExpired`. */
  function Cleaned(t: Tables, now: int): Tables {
    Tables(
      map k | k in t.bootstrap && t.bootstrap[k].Usable(now) :: t.bootstrap[k],
      map k | k in t.grants :: RevokeIfExpired(t.grants[k], now),
      map k | k in t.sessions && t.sessions[k].Live(now) :: t.sessions[k])
  }

  function AuthenticateAnswer(t: Tables, token: string, now: int, later: int): Answer {
    if token == "" then Rejected(MissingField)
    else if token !in t.sessions then Rejected(NotFound)
    else
      var s := t.sessions[token];
      if s.revoked then Rejected(SessionRevoked)
      else if now >= s.expiresAt then Rejected(Expired)
      else if s.grantID !in t.grants then Rejected(NotFound)
      else if !t.grants[s.grantID].Active(later) then Rejected(GrantInactive)
      else Authenticated(s.agentID)
  }

  /** The tables and the answer if everything that the call writes is recorded. */
  function Attempt(cfg: Lifetimes, t: Tables, c: AuthCall, now: int, later: int): (Tables, Answer) {
    match c
    case CreateBootstrap(agentID, containerID, newToken) =>
      if TrimSpace(agentID) == "" || TrimSpace(containerID) == "" then (t, Rejected(MissingField))
      else
        var b := NewBootstrap(cfg, c, now);
        (t.(bootstrap := t.bootstrap[newToken := b]), Bootstrapped(b))
    case CompletePairing(token, containerID, newGrantID) =>
      if TrimSpace(token) == "" || TrimSpace(containerID) == "" then (t, Rejected(MissingField))
      else
        (match BootstrapProblem(t, token, containerID, now)
         case Some(reason) => (t, Rejected(reason))
         case None =>
           var g := NewGrant(cfg, newGrantID, t.bootstrap[token].agentID, containerID, later);
           (t.(bootstrap := t.bootstrap[token := t.bootstrap[token].(used := true)],
               grants := t.grants[newGrantID := g]),
            Paired(g)))
    case MintSession(grantID, newSession) =>
      if grantID !in t.grants then (t, Rejected(NotFound))
      else if !t.grants[grantID].Active(now) then (t, Rejected(GrantInactive))
      else
        var g := Renewed(cfg, t.grants[grantID], now);
        var s := NewSession(cfg, newSession, g, now);
        (t.(grants := t.grants[g.grantID := g], sessions := t.sessions[newSession := s]), Minted(s))
    case Revoke(grantID, sessionID) =>
      if TrimSpace(grantID) == "" && TrimSpace(sessionID) == "" then (t, Rejected(MissingField))
      else
        (match RevokeBoth(t, grantID, sessionID)
         case None => (t, Rejected(NotFound))
         case Some(t') => (t', RevocationDone))
    case Authenticate(token) => (t, AuthenticateAnswer(t, token, now, later))
    case CleanupPass => (Cleaned(t, now), CleanedUp)
  }

  /** A successful attempt that has something to record. */
  predicate Records(cfg: Lifetimes, t: Tables, u: Turn) {
    var (t', answer) := Attempt(cfg, t, u.call, u.now, u.later);
    !answer.Rejected? && !answer.Authenticated? && (u.call.CleanupPass? ==> t' != t)
  }

  /** All or nothing: what cannot be recorded did not happen, and closes the gate. */
  function Perform(cfg: Lifetimes, m: Machine, u: Turn): (Machine, Answer) {
    if Records(cfg, m.tables, u) && !(u.persisted && u.audited) then (Machine(m.tables, false), Rejected(Unrecorded))
    else
      var (t', answer) := Attempt(cfg, m.tables, u.call, u.now, u.later);
      (Machine(t', m.open), answer)
  }

  /** A handler: the gate is looked at first. */
  function Serve(cfg: Lifetimes, m: Machine, u: Turn): (Machine, Answer) {
    var m' := Machine(m.tables, m.open && !u.shut);
    if u.call.Gated() && !m'.open then (m', Rejected(GateClosed)) else Perform(cfg, m', u)
  }
}
