/** The in-memory auth store (`internal/auth/store.go`, `internal/auth/persist.go`). */
module AuthStore {
  import opened Prelude
  import opened AuthModel

  class Store {
    var bootstrap: map<string, BootstrapToken>
    var grants: map<string, PairingGrant>
    var sessions: map<string, SessionToken>

    constructor ()
      ensures Contents() == Tables(map[], map[], map[])
    {
      bootstrap, grants, sessions := map[], map[], map[];
    }

    ghost function Contents(): Tables
      reads this
    {
      Tables(bootstrap, grants, sessions)
    }

    method Snapshot() returns (t: Tables)
      ensures t == Contents()
    {
      t := Tables(bootstrap, grants, sessions);
    }

    method Restore(t: Tables)
      modifies this
      ensures Contents() == t
    {
      bootstrap, grants, sessions := t.bootstrap, t.grants, t.sessions;
    }

    method SaveBootstrap(t: BootstrapToken)
      modifies this
      ensures Contents() == old(Contents()).(bootstrap := old(bootstrap)[t.token := t])
    {
      bootstrap := bootstrap[t.token := t];
    }

    method ConsumeBootstrap(token: string, containerID: string, now: int) returns (r: Result<BootstrapToken, Reason>)
      modifies this
      ensures r.Err? ==> BootstrapProblem(old(Contents()), token, containerID, now) == Some(r.error) && Contents() == old(Contents())
      ensures r.Ok? ==>
        && BootstrapProblem(old(Contents()), token, containerID, now).None?
        && r.value == old(bootstrap)[token].(used := true)
        && Contents() == old(Contents()).(bootstrap := old(bootstrap)[token := r.value])
    {
      if token !in bootstrap {
        return Err(NotFound);
      }
      var t := bootstrap[token];
      if t.used {
        return Err(AlreadyUsed);
      }
      if t.containerID != "" && containerID != t.containerID {
        return Err(ContainerMismatch);
      }
      if !(now < t.expiresAt) {
        return Err(Expired);
      }
      t := t.(used := true);
      bootstrap := bootstrap[token := t];
      return Ok(t);
    }

    method SaveGrant(g: PairingGrant)
      modifies this
      ensures Contents() == old(Contents()).(grants := old(grants)[g.grantID := g])
    {
      grants := grants[g.grantID := g];
    }

    method SaveSession(s: SessionToken)
      modifies this
      ensures Contents() == old(Contents()).(sessions := old(sessions)[s.token := s])
    {
      sessions := sessions[s.token := s];
    }

    method RevokeGrant(id: string) returns (found: bool)
      modifies this
      ensures found == (id in old(grants))
      ensures Contents() == if found then old(Contents()).(grants := old(grants)[id := old(grants)[id].(revoked := true)])
                            else old(Contents())
    {
      found := id in grants;
      if found {
        grants := grants[id := grants[id].(revoked := true)];
      }
    }

    method RevokeSession(token: string) returns (found: bool)
      modifies this
      ensures found == (token in old(sessions))
      ensures Contents() == if found then old(Contents()).(sessions := old(sessions)[token := old(sessions)[token].(revoked := true)])
                            else old(Contents())
    {
      found := token in sessions;
      if found {
        sessions := sessions[token := sessions[token].(revoked := true)];
      }
    }

    method ValidateSession(token: string, now: int) returns (r: Result<SessionToken, Reason>)
      ensures r.Ok? <==> token in sessions && sessions[token].Live(now)
      ensures r.Ok? ==> r.value == sessions[token]
      ensures r.Err? ==> r.error == if token !in sessions then NotFound else if sessions[token].revoked then SessionRevoked else Expired
    {
      if token !in sessions {
        return Err(NotFound);
      }
      var t := sessions[token];
      if t.revoked {
        return Err(SessionRevoked);
      }
      if !(now < t.expiresAt) {
        return Err(Expired);
      }
      return Ok(t);
    }

    /** Removes what can no longer be used, and reports how much changed: nothing exactly when all counts are zero. */
    method CleanupExpired(now: int) returns (removedBootstrap: nat, removedSessions: nat, revokedGrants: nat)
      modifies this
      ensures Contents() == Cleaned(old(Contents()), now)
      ensures removedBootstrap == |old(bootstrap)| - |bootstrap|
      ensures removedSessions == |old(sessions)| - |sessions|
      ensures revokedGrants == |set k | k in old(grants) && grants[k] != old(grants)[k]|
      ensures removedBootstrap + removedSessions + revokedGrants == 0 <==> Contents() == old(Contents())
    {
      removedBootstrap := CleanupBootstrap(now);
      removedSessions := CleanupSessions(now);
      revokedGrants := CleanupGrants(now);
    }

    method CleanupBootstrap(now: int) returns (removed: nat)
      modifies this`bootstrap
      ensures bootstrap == map k | k in old(bootstrap) && old(bootstrap)[k].Usable(now) :: old(bootstrap)[k]
      ensures removed == |old(bootstrap)| - |bootstrap|
      ensures removed == 0 <==> bootstrap == old(bootstrap)
    {
      removed := 0;
      var todo := bootstrap.Keys;
      while todo != {}
        invariant todo <= old(bootstrap).Keys
        invariant bootstrap == map k | k in old(bootstrap) && (k in todo || old(bootstrap)[k].Usable(now)) :: old(bootstrap)[k]
        invariant removed == |old(bootstrap)| - |bootstrap|
        invariant removed == 0 <==> bootstrap == old(bootstrap)
        decreases todo
      {
        var k :| k in todo;
        todo := todo - {k};
        if bootstrap[k].used || !(now < bootstrap[k].expiresAt) {
          assert bootstrap.Keys == (bootstrap - {k}).Keys + {k};
          bootstrap := bootstrap - {k};
          removed := removed + 1;
        }
      }
    }

    method CleanupSessions(now: int) returns (removed: nat)
      modifies this`sessions
      ensures sessions == map k | k in old(sessions) && old(sessions)[k].Live(now) :: old(sessions)[k]
      ensures removed == |old(sessions)| - |sessions|
      ensures removed == 0 <==> sessions == old(sessions)
    {
      removed := 0;
      var todo := sessions.Keys;
      while todo != {}
        invariant todo <= old(sessions).Keys
        invariant sessions == map k | k in old(sessions) && (k in todo || old(sessions)[k].Live(now)) :: old(sessions)[k]
        invariant removed == |old(sessions)| - |sessions|
        invariant removed == 0 <==> sessions == old(sessions)
        decreases todo
      {
        var k :| k in todo;
        todo := todo - {k};
        if sessions[k].revoked || !(now < sessions[k].expiresAt) {
          assert sessions.Keys == (sessions - {k}).Keys + {k};
          sessions := sessions - {k};
          removed := removed + 1;
        }
      }
    }

    method CleanupGrants(now: int) returns (revoked: nat)
      modifies this`grants
      ensures grants == map k | k in old(grants) :: RevokeIfExpired(old(grants)[k], now)
      ensures revoked == |set k | k in old(grants) && grants[k] != old(grants)[k]|
      ensures revoked == 0 <==> grants == old(grants)
    {
      revoked := 0;
      ghost var changed: set<string> := {};
      var todo := grants.Keys;
      while todo != {}
        invariant todo <= old(grants).Keys
        invariant grants == map k | k in old(grants) ::
          if k in todo then old(grants)[k] else RevokeIfExpired(old(grants)[k], now)
        invariant forall k | k in changed :: k in old(grants) && k !in todo
        invariant forall k | k in old(grants) && k !in todo :: k in changed <==> RevokeIfExpired(old(grants)[k], now) != old(grants)[k]
        invariant revoked == |changed|
        decreases todo
      {
        var k :| k in todo;
        todo := todo - {k};
        var g := grants[k];
        if !g.revoked && (!(now < g.idleExpiresAt) || !(now < g.absoluteExpiresAt)) {
          grants := grants[k := g.(revoked := true)];
          revoked := revoked + 1;
          changed := changed + {k};
        }
      }
      assert changed == set k | k in old(grants) && grants[k] != old(grants)[k];
    }
  }
}
