/**
 Exactly when each auth call is accepted, said of the calls before it alone: the tables, their clean-ups and
 their roll-backs do not appear.
 */
module AuthHistory {
  import opened Text
  import opened Time
  import opened AuthModel
  import opened AuthRuns

  // What a turn did

  predicate Makes(r: Run, k: nat, token: string)
    requires k < |r.turns| == |r.answers|
  {
    r.answers[k].Bootstrapped? && r.turns[k].call.CreateBootstrap? && r.turns[k].call.newToken == token
  }

  predicate Pairs(r: Run, k: nat, id: string)
    requires k < |r.turns| == |r.answers|
  {
    r.answers[k].Paired? && r.turns[k].call.CompletePairing? && r.turns[k].call.newGrantID == id
  }

  predicate Spends(r: Run, k: nat, token: string)
    requires k < |r.turns| == |r.answers|
  {
    r.answers[k].Paired? && r.turns[k].call.CompletePairing? && r.turns[k].call.token == token
  }

  predicate Mints(r: Run, k: nat, token: string)
    requires k < |r.turns| == |r.answers|
  {
    r.answers[k].Minted? && r.turns[k].call.MintSession? && r.turns[k].call.newSession == token
  }

  /** Grant `id` was paired, or a session was minted from it. */
  predicate Uses(r: Run, k: nat, id: string)
    requires k < |r.turns| == |r.answers|
  {
    Pairs(r, k, id) || (r.answers[k].Minted? && r.turns[k].call.MintSession? && r.turns[k].call.grantID == id)
  }

  predicate RevokesToken(r: Run, k: nat, token: string)
    requires k < |r.turns| == |r.answers|
  {
    r.answers[k].RevocationDone? && r.turns[k].call.Revoke? && r.turns[k].call.sessionID == token && TrimSpace(token) != ""
  }

  predicate Cleans(r: Run, k: nat)
    requires k < |r.turns| == |r.answers|
  {
    r.answers[k].CleanedUp? && r.turns[k].call.CleanupPass?
  }

  /** Everything before machine `i` was over by `t`. */
  predicate NoEarlier(r: Run, i: nat, t: int)
    requires i <= |r.turns|
  {
    forall k | 0 <= k < i :: r.turns[k].later <= t
  }

  lemma TurnsAreOver(cfg: Lifetimes, r: Run, j: nat)
    requires IsRun(cfg, r) && j < |r.turns|
    ensures NoEarlier(r, j, r.turns[j].now) && NoEarlier(r, j, r.turns[j].later)
  {
  }

  // The gate

  /** The gate was open from the start, nothing closed it from elsewhere, and everything was recorded. */
  predicate OpenAt(r: Run, j: nat)
    requires j < |r.turns| == |r.answers| && |r.machines| > 0
  {
    && r.machines[0].open
    && (forall k | 0 <= k <= j :: !r.turns[k].shut)
    && (forall k | 0 <= k < j :: r.answers[k] != Rejected(Unrecorded))
  }

  lemma GateAfterStep(cfg: Lifetimes, m: Machine, u: Turn)
    ensures Serve(cfg, m, u).0.open <==> m.open && !u.shut && Serve(cfg, m, u).1 != Rejected(Unrecorded)
  {
  }

  lemma {:induction false} OpenIff(cfg: Lifetimes, r: Run, j: nat)
    requires IsRun(cfg, r) && j < |r.turns|
    ensures r.machines[j].open && !r.turns[j].shut <==> OpenAt(r, j)
  {
    if j > 0 {
      OpenIff(cfg, r, j - 1);
      assert StepsTo(cfg, r, j - 1);
      GateAfterStep(cfg, r.machines[j - 1], r.turns[j - 1]);
    }
  }

  predicate IsRecorded(u: Turn) {
    u.persisted && u.audited
  }

  // Sessions

  predicate TokenRevokedBefore(r: Run, i: nat, token: string)
    requires i <= |r.turns| == |r.answers|
  {
    exists k | 0 <= k < i :: RevokesToken(r, k, token)
  }

  /** No cleanup since turn `m` found the session that it minted over age or revoked. */
  predicate Kept(cfg: Lifetimes, r: Run, m: nat, i: nat, token: string)
    requires m < i <= |r.turns| == |r.answers|
  {
    forall q | m < q < i && Cleans(r, q) ::
      r.turns[q].now < r.turns[m].now + cfg.sessionTTLMinutes * MINUTE && !TokenRevokedBefore(r, q, token)
  }

  /** What a step does to a session that it does not mint. */
  lemma SessionAfterStep(cfg: Lifetimes, m: Machine, u: Turn, token: string)
    requires !(Serve(cfg, m, u).1.Minted? && u.call.MintSession? && u.call.newSession == token)
    ensures
      var (m', answer) := Serve(cfg, m, u);
      var t, t' := m.tables.sessions, m'.tables.sessions;
      if token !in t then token !in t'
      else if answer.RevocationDone? && u.call.Revoke? && u.call.sessionID == token && TrimSpace(token) != "" then
        token in t' && t'[token] == t[token].(revoked := true)
      else if answer.CleanedUp? && u.call.CleanupPass? && !t[token].Live(u.now) then token !in t'
      else token in t' && t'[token] == t[token]
  {
  }

  lemma NotMintedYet(cfg: Lifetimes, r: Run, m: nat, i: nat, token: string)
    requires IsRun(cfg, r) && i <= m < |r.turns| && Mints(r, m, token)
    ensures token !in r.machines[i].tables.sessions
  {
    if token in r.machines[i].tables.sessions {
      var m' := SessionHasStory(cfg, r, i, token);
      RunWellKeyed(cfg, r, i);
      assert StepsTo(cfg, r, m');
      RunWellKeyed(cfg, r, m');
      assert SameNewID(r.turns[m'].call, r.turns[m].call);
    }
  }

  lemma NotRevokedYet(cfg: Lifetimes, r: Run, m: nat, i: nat, token: string)
    requires IsRun(cfg, r) && i <= m + 1 <= |r.turns| && Mints(r, m, token)
    ensures !TokenRevokedBefore(r, i, token)
  {
    if TokenRevokedBefore(r, i, token) {
      var k :| 0 <= k < i && RevokesToken(r, k, token);
      assert StepsTo(cfg, r, k);
      NotMintedYet(cfg, r, m, k, token);
      SessionAfterStep(cfg, r.machines[k], r.turns[k], token);
    }
  }

  /** Where a minted session is, and in what state, at every later point. */
  lemma {:induction false} SessionAt(cfg: Lifetimes, r: Run, m: nat, i: nat, token: string)
    requires IsRun(cfg, r) && m < i < |r.machines| && Mints(r, m, token)
    ensures token in r.machines[i].tables.sessions <==> Kept(cfg, r, m, i, token)
    ensures token in r.machines[i].tables.sessions ==>
      r.machines[i].tables.sessions[token] == r.answers[m].session.(revoked := TokenRevokedBefore(r, i, token))
    ensures r.answers[m].session.expiresAt == r.turns[m].now + cfg.sessionTTLMinutes * MINUTE
    ensures r.answers[m].session.grantID == r.turns[m].call.grantID
  {
    MintedSession(cfg, r, m, token);
    if i == m + 1 {
      NotRevokedYet(cfg, r, m, i, token);
    } else {
      SessionAt(cfg, r, m, i - 1, token);
      assert StepsTo(cfg, r, i - 1);
      assert !(Mints(r, i - 1, token)) by {
        assert !SameNewID(r.turns[m].call, r.turns[i - 1].call);
      }
      SessionAfterStep(cfg, r.machines[i - 1], r.turns[i - 1], token);
      KeptNext(cfg, r, m, i - 1, token);
    }
  }

  lemma MintedSession(cfg: Lifetimes, r: Run, m: nat, token: string)
    requires IsRun(cfg, r) && m < |r.turns| && Mints(r, m, token)
    ensures token in r.machines[m + 1].tables.sessions && r.machines[m + 1].tables.sessions[token] == r.answers[m].session
    ensures
      r.answers[m].session ==
      SessionToken(token, r.turns[m].call.grantID, r.answers[m].session.agentID, r.turns[m].now,
                   r.turns[m].now + cfg.sessionTTLMinutes * MINUTE, false)
  {
    assert StepsTo(cfg, r, m);
    RunWellKeyed(cfg, r, m);
  }

  lemma KeptNext(cfg: Lifetimes, r: Run, m: nat, i: nat, token: string)
    requires m < i < |r.turns| == |r.answers|
    ensures TokenRevokedBefore(r, i + 1, token) <==> TokenRevokedBefore(r, i, token) || RevokesToken(r, i, token)
    ensures Kept(cfg, r, m, i + 1, token) <==>
      && Kept(cfg, r, m, i, token)
      && (Cleans(r, i) ==>
            r.turns[i].now < r.turns[m].now + cfg.sessionTTLMinutes * MINUTE && !TokenRevokedBefore(r, i, token))
  {
  }

  /** A session is live exactly when it was minted not too long ago and has not been revoked. */
  lemma SessionIsLiveIff(cfg: Lifetimes, r: Run, m: nat, i: nat, token: string, t: int)
    requires IsRun(cfg, r) && m < i < |r.machines| && Mints(r, m, token) && NoEarlier(r, i, t)
    ensures
      token in r.machines[i].tables.sessions && r.machines[i].tables.sessions[token].Live(t)
      <==> t < r.turns[m].now + cfg.sessionTTLMinutes * MINUTE && !TokenRevokedBefore(r, i, token)
  {
    SessionAt(cfg, r, m, i, token);
    if t < r.turns[m].now + cfg.sessionTTLMinutes * MINUTE && !TokenRevokedBefore(r, i, token) {
      forall q | m < q < i && Cleans(r, q)
        ensures r.turns[q].now < r.turns[m].now + cfg.sessionTTLMinutes * MINUTE && !TokenRevokedBefore(r, q, token)
      {
        assert r.turns[q].now <= r.turns[q].later <= t;
      }
    }
  }

  // Grants

  predicate GrantRevokedBefore(r: Run, i: nat, id: string)
    requires i <= |r.turns| == |r.answers|
  {
    exists k | 0 <= k < i :: Revokes(r, k, id)
  }

  /** `u` is the last use of grant `id` before machine `i`. */
  predicate LastUse(r: Run, i: nat, id: string, u: nat)
    requires i <= |r.turns| == |r.answers|
  {
    u < i && Uses(r, u, id) && forall v | u < v < i :: !Uses(r, v, id)
  }

  /** Within the absolute lifetime of the pairing `p` and the idle timeout of the last use `u`. */
  predicate WithinLifetimes(cfg: Lifetimes, r: Run, p: nat, u: nat, t: int)
    requires p < |r.turns| && u < |r.turns|
  {
    && t < r.turns[p].later + cfg.grantAbsoluteMaxMinutes * MINUTE
    && t < (if r.turns[u].call.CompletePairing? then r.turns[u].later else r.turns[u].now) + cfg.grantIdleTimeoutMinutes * MINUTE
  }

  lemma UsesIsUse(cfg: Lifetimes, r: Run, k: nat, id: string)
    requires IsRun(cfg, r) && k < |r.turns|
    ensures Uses(r, k, id) <==> UseOf(r.answers[k], id)
  {
    assert StepsTo(cfg, r, k);
    RunWellKeyed(cfg, r, k);
  }

  /** A stored grant with the pairing and the last use behind it. */
  lemma GrantAt(cfg: Lifetimes, r: Run, i: nat, id: string) returns (p: nat, u: nat)
    requires IsRun(cfg, r) && i < |r.machines| && id in r.machines[i].tables.grants
    ensures p <= u < i && Pairs(r, p, id) && LastUse(r, i, id, u)
    ensures
      var g := r.machines[i].tables.grants[id];
      && g.absoluteExpiresAt == r.turns[p].later + cfg.grantAbsoluteMaxMinutes * MINUTE
      && g.idleExpiresAt
         == (if r.turns[u].call.CompletePairing? then r.turns[u].later else r.turns[u].now) + cfg.grantIdleTimeoutMinutes * MINUTE
      && g.agentID == r.answers[p].grant.agentID
  {
    p, u := GrantHasStory(cfg, r, i, id);
    UsesIsUse(cfg, r, u, id);
    forall v | u < v < i ensures !Uses(r, v, id) {
      UsesIsUse(cfg, r, v, id);
    }
  }

  lemma PairedIsStored(cfg: Lifetimes, r: Run, p: nat, i: nat, id: string)
    requires IsRun(cfg, r) && p < i < |r.machines| && Pairs(r, p, id)
    ensures id in r.machines[i].tables.grants
    decreases i
  {
    assert StepsTo(cfg, r, i - 1);
    if i > p + 1 {
      PairedIsStored(cfg, r, p, i - 1, id);
    }
  }

  lemma SamePairing(cfg: Lifetimes, r: Run, p: nat, p': nat, id: string)
    requires IsRun(cfg, r) && p < |r.turns| && p' < |r.turns| && Pairs(r, p, id) && Pairs(r, p', id)
    ensures p == p'
  {
    assert p < p' ==> SameNewID(r.turns[p].call, r.turns[p'].call);
    assert p' < p ==> SameNewID(r.turns[p'].call, r.turns[p].call);
  }

  /** A grant is revoked because a call named it, or because a cleanup found it expired. */
  predicate RevokedBecause(r: Run, i: nat, id: string, g: PairingGrant)
    requires i <= |r.turns| == |r.answers|
  {
    || GrantRevokedBefore(r, i, id)
    || exists q | 0 <= q < i :: Cleans(r, q) && (g.idleExpiresAt <= r.turns[q].now || g.absoluteExpiresAt <= r.turns[q].now)
  }

  lemma GrantRevokedByStep(cfg: Lifetimes, m: Machine, u: Turn, id: string)
    requires WellKeyed(m.tables) && id in m.tables.grants
    requires u.call.CompletePairing? ==> u.call.newGrantID != id
    ensures
      var (m', answer) := Serve(cfg, m, u);
      var g := m.tables.grants[id];
      && id in m'.tables.grants
      && var g' := m'.tables.grants[id];
      && (g.revoked ==> g' == g)
      && (g'.revoked ==> g' == g.(revoked := true))
      && (g'.revoked && !g.revoked ==>
            || (answer.RevocationDone? && u.call.Revoke? && u.call.grantID == id && TrimSpace(id) != "")
            || (answer.CleanedUp? && u.call.CleanupPass? && (g.idleExpiresAt <= u.now || g.absoluteExpiresAt <= u.now)))
  {
  }

  lemma {:induction false} RevokedHasCause(cfg: Lifetimes, r: Run, i: nat, id: string)
    requires IsRun(cfg, r) && i < |r.machines| && id in r.machines[i].tables.grants && r.machines[i].tables.grants[id].revoked
    ensures RevokedBecause(r, i, id, r.machines[i].tables.grants[id])
  {
    if i == 0 {
      assert false;
    } else {
      assert StepsTo(cfg, r, i - 1);
      RunWellKeyed(cfg, r, i - 1);
      var g := r.machines[i].tables.grants[id];
      if r.turns[i - 1].call.CompletePairing? && r.turns[i - 1].call.newGrantID == id {
        NewGrantUnused(cfg, r, i - 1);
        assert false;
      }
      GrantRevokedByStep(cfg, r.machines[i - 1], r.turns[i - 1], id);
      if r.machines[i - 1].tables.grants[id].revoked {
        RevokedHasCause(cfg, r, i - 1, id);
        CauseLasts(r, i - 1, id, g);
      } else {
        assert Revokes(r, i - 1, id) || Cleans(r, i - 1);
      }
    }
  }

  lemma CauseLasts(r: Run, i: nat, id: string, g: PairingGrant)
    requires i < |r.turns| == |r.answers| && RevokedBecause(r, i, id, g)
    ensures RevokedBecause(r, i + 1, id, g)
  {
    if GrantRevokedBefore(r, i, id) {
      var k :| 0 <= k < i && Revokes(r, k, id);
      assert GrantRevokedBefore(r, i + 1, id);
    }
  }

  /** A grant is active exactly when it was paired, is within both lifetimes, and was never revoked. */
  ghost predicate ActiveAt(cfg: Lifetimes, r: Run, i: nat, id: string, t: int)
    requires i <= |r.turns| == |r.answers|
  {
    && !GrantRevokedBefore(r, i, id)
    && exists p, u | 0 <= p <= u < i :: Pairs(r, p, id) && LastUse(r, i, id, u) && WithinLifetimes(cfg, r, p, u, t)
  }

  lemma GrantIsActiveIff(cfg: Lifetimes, r: Run, i: nat, id: string, t: int)
    requires IsRun(cfg, r) && i < |r.machines| && NoEarlier(r, i, t)
    ensures id in r.machines[i].tables.grants && r.machines[i].tables.grants[id].Active(t) <==> ActiveAt(cfg, r, i, id, t)
  {
    if id in r.machines[i].tables.grants && r.machines[i].tables.grants[id].Active(t) {
      var p, u := GrantAt(cfg, r, i, id);
      if GrantRevokedBefore(r, i, id) {
        var k :| 0 <= k < i && Revokes(r, k, id);
        RevokedIsInactive(cfg, r, k, i, id, t);
      }
      assert WithinLifetimes(cfg, r, p, u, t);
    }
    if ActiveAt(cfg, r, i, id, t) {
      var p, u :| 0 <= p <= u < i && Pairs(r, p, id) && LastUse(r, i, id, u) && WithinLifetimes(cfg, r, p, u, t);
      PairedIsStored(cfg, r, p, i, id);
      var p', u' := GrantAt(cfg, r, i, id);
      SamePairing(cfg, r, p, p', id);
      assert u == u';
      NotRevokedInTime(cfg, r, i, id, t);
    }
  }

  lemma NotRevokedInTime(cfg: Lifetimes, r: Run, i: nat, id: string, t: int)
    requires IsRun(cfg, r) && i < |r.machines| && NoEarlier(r, i, t) && !GrantRevokedBefore(r, i, id)
    requires id in r.machines[i].tables.grants
    requires t < r.machines[i].tables.grants[id].idleExpiresAt && t < r.machines[i].tables.grants[id].absoluteExpiresAt
    ensures !r.machines[i].tables.grants[id].revoked
  {
    var g := r.machines[i].tables.grants[id];
    if g.revoked {
      RevokedHasCause(cfg, r, i, id);
    }
  }

  // Bootstrap tokens

  /** The token was made not too long ago, for `container`, and no pairing has spent it. */
  predicate SpendableAt(cfg: Lifetimes, r: Run, i: nat, token: string, container: string, t: int)
    requires i <= |r.turns| == |r.answers|
  {
    && (exists c | 0 <= c < i ::
          Makes(r, c, token) && r.turns[c].call.containerID == container
          && t < r.turns[c].now + cfg.bootstrapTokenTTLSeconds * SECOND)
    && forall k | 0 <= k < i :: !Spends(r, k, token)
  }

  lemma MadeToken(cfg: Lifetimes, r: Run, c: nat, token: string)
    requires IsRun(cfg, r) && c < |r.turns| && Makes(r, c, token)
    ensures token in r.machines[c + 1].tables.bootstrap
    ensures r.machines[c + 1].tables.bootstrap[token] == r.answers[c].bootstrapToken
    ensures
      r.answers[c].bootstrapToken ==
      BootstrapToken(token, r.turns[c].call.agentID, r.turns[c].call.containerID, r.turns[c].now,
                     r.turns[c].now + cfg.bootstrapTokenTTLSeconds * SECOND, false)
    ensures TrimSpace(r.turns[c].call.containerID) != ""
  {
    assert StepsTo(cfg, r, c);
  }

  lemma BootstrapAfterStep(cfg: Lifetimes, m: Machine, u: Turn, token: string, t: int)
    requires token in m.tables.bootstrap && m.tables.bootstrap[token].Usable(t) && u.now <= t
    requires !(Serve(cfg, m, u).1.Bootstrapped? && u.call.CreateBootstrap? && u.call.newToken == token)
    requires !(Serve(cfg, m, u).1.Paired? && u.call.CompletePairing? && u.call.token == token)
    ensures
      var t' := Serve(cfg, m, u).0.tables.bootstrap;
      token in t' && t'[token] == m.tables.bootstrap[token]
  {
  }

  lemma {:induction false} UnspentIsStored(cfg: Lifetimes, r: Run, c: nat, i: nat, token: string, t: int)
    requires IsRun(cfg, r) && c < i < |r.machines| && Makes(r, c, token) && NoEarlier(r, i, t)
    requires t < r.turns[c].now + cfg.bootstrapTokenTTLSeconds * SECOND
    requires forall k | 0 <= k < i :: !Spends(r, k, token)
    ensures token in r.machines[i].tables.bootstrap
    ensures r.machines[i].tables.bootstrap[token] == r.answers[c].bootstrapToken
    decreases i
  {
    MadeToken(cfg, r, c, token);
    if i > c + 1 {
      UnspentIsStored(cfg, r, c, i - 1, token, t);
      assert StepsTo(cfg, r, i - 1);
      assert !Makes(r, i - 1, token) by {
        assert !SameNewID(r.turns[c].call, r.turns[i - 1].call);
      }
      assert !Spends(r, i - 1, token);
      assert r.turns[i - 1].now <= r.turns[i - 1].later <= t;
      BootstrapAfterStep(cfg, r.machines[i - 1], r.turns[i - 1], token, t);
    }
  }

  lemma SpendableIff(cfg: Lifetimes, r: Run, i: nat, token: string, container: string, t: int)
    requires IsRun(cfg, r) && i < |r.machines| && NoEarlier(r, i, t)
    ensures
      && token in r.machines[i].tables.bootstrap
      && r.machines[i].tables.bootstrap[token].Usable(t) && r.machines[i].tables.bootstrap[token].containerID == container
      <==> SpendableAt(cfg, r, i, token, container, t)
  {
    if token in r.machines[i].tables.bootstrap && r.machines[i].tables.bootstrap[token].Usable(t) {
      var c := BootstrapHasStory(cfg, r, i, token);
      MadeToken(cfg, r, c, token);
      forall k | 0 <= k < i ensures !Spends(r, k, token) {
        if Spends(r, k, token) {
          TokenStaysUsed(cfg, r, k, i);
        }
      }
    }
    if SpendableAt(cfg, r, i, token, container, t) {
      var c :| 0 <= c < i && Makes(r, c, token) && r.turns[c].call.containerID == container
               && t < r.turns[c].now + cfg.bootstrapTokenTTLSeconds * SECOND;
      MadeToken(cfg, r, c, token);
      UnspentIsStored(cfg, r, c, i, token, t);
    }
  }

  // Exactly when each call is accepted

  /** The session of turn `m` may be used by turn `j`: it is in time, its grant is, and neither was revoked. */
  ghost predicate AuthenticatesAs(cfg: Lifetimes, r: Run, m: nat, j: nat)
    requires m < j < |r.turns| == |r.answers|
  {
    && r.turns[j].call.Authenticate? && r.turns[j].call.token != ""
    && Mints(r, m, r.turns[j].call.token)
    && r.turns[j].now < r.turns[m].now + cfg.sessionTTLMinutes * MINUTE
    && !TokenRevokedBefore(r, j, r.turns[j].call.token)
    && ActiveAt(cfg, r, j, r.turns[m].call.grantID, r.turns[j].later)
  }

  /**
   A call is authenticated exactly when an earlier one minted its session, less than the session lifetime
   ago, from a grant that was paired less than the absolute maximum and last paired or minted from less than
   the idle timeout ago, and no revocation has named the session or the grant. Other sessions of the grant,
   failed calls and cleanup passes in between do not matter.
   */
  lemma AuthenticatedIff(cfg: Lifetimes, r: Run, j: nat)
    requires IsRun(cfg, r) && j < |r.turns| && r.turns[j].call.Authenticate?
    ensures !r.answers[j].Rejected? <==> exists m | 0 <= m < j :: AuthenticatesAs(cfg, r, m, j)
  {
    var token, now, later := r.turns[j].call.token, r.turns[j].now, r.turns[j].later;
    assert StepsTo(cfg, r, j);
    TurnsAreOver(cfg, r, j);
    if !r.answers[j].Rejected? {
      var m := SessionHasStory(cfg, r, j, token);
      StoryIsMint(cfg, r, j, token, m);
      SessionAt(cfg, r, m, j, token);
      SessionIsLiveIff(cfg, r, m, j, token, now);
      GrantIsActiveIff(cfg, r, j, r.turns[m].call.grantID, later);
      assert AuthenticatesAs(cfg, r, m, j);
    }
    if exists m | 0 <= m < j :: AuthenticatesAs(cfg, r, m, j) {
      var m :| 0 <= m < j && AuthenticatesAs(cfg, r, m, j);
      SessionIsLiveIff(cfg, r, m, j, token, now);
      SessionAt(cfg, r, m, j, token);
      GrantIsActiveIff(cfg, r, j, r.turns[m].call.grantID, later);
    }
  }

  lemma StoryIsMint(cfg: Lifetimes, r: Run, i: nat, token: string, m: nat)
    requires IsRun(cfg, r) && i < |r.machines| && token in r.machines[i].tables.sessions && SessionStory(cfg, r, i, token, m)
    ensures Mints(r, m, token)
  {
    RunWellKeyed(cfg, r, i);
    assert StepsTo(cfg, r, m);
    RunWellKeyed(cfg, r, m);
  }

  /** A bootstrap token is made exactly when the gate is open, agent and container are named, and it is recorded. */
  lemma BootstrappedIff(cfg: Lifetimes, r: Run, j: nat)
    requires IsRun(cfg, r) && j < |r.turns| && r.turns[j].call.CreateBootstrap?
    ensures
      var c := r.turns[j].call;
      !r.answers[j].Rejected?
      <==> OpenAt(r, j) && TrimSpace(c.agentID) != "" && TrimSpace(c.containerID) != "" && IsRecorded(r.turns[j])
    ensures !r.answers[j].Rejected? ==>
      var c, now := r.turns[j].call, r.turns[j].now;
      r.answers[j] == Bootstrapped(BootstrapToken(
        c.newToken, c.agentID, c.containerID, now, now + cfg.bootstrapTokenTTLSeconds * SECOND, false))
  {
    assert StepsTo(cfg, r, j);
    OpenIff(cfg, r, j);
  }

  /**
   A pairing is completed exactly when the gate is open, the token was made for the container less than its
   lifetime ago and has not been spent, and the pairing is recorded; the grant is the token's agent's.
   */
  lemma PairedIff(cfg: Lifetimes, r: Run, j: nat)
    requires IsRun(cfg, r) && j < |r.turns| && r.turns[j].call.CompletePairing?
    ensures
      var c := r.turns[j].call;
      !r.answers[j].Rejected?
      <==> && OpenAt(r, j) && IsRecorded(r.turns[j]) && TrimSpace(c.token) != "" && TrimSpace(c.containerID) != ""
           && SpendableAt(cfg, r, j, c.token, c.containerID, r.turns[j].now)
    ensures !r.answers[j].Rejected? ==>
      var c, later := r.turns[j].call, r.turns[j].later;
      exists b | 0 <= b < j :: Makes(r, b, c.token) && r.answers[j] == Paired(PairingGrant(
        c.newGrantID, r.turns[b].call.agentID, c.containerID, later, later,
        later + cfg.grantIdleTimeoutMinutes * MINUTE, later + cfg.grantAbsoluteMaxMinutes * MINUTE, false))
  {
    var c := r.turns[j].call;
    assert StepsTo(cfg, r, j);
    TurnsAreOver(cfg, r, j);
    OpenIff(cfg, r, j);
    SpendableIff(cfg, r, j, c.token, c.containerID, r.turns[j].now);
    if c.token in r.machines[j].tables.bootstrap {
      var b := BootstrapHasStory(cfg, r, j, c.token);
      MadeToken(cfg, r, b, c.token);
      assert Makes(r, b, c.token);
    }
  }

  /** A session is minted exactly when the gate is open, the grant is active, and it is recorded; it is the paired agent's. */
  lemma MintedIff(cfg: Lifetimes, r: Run, j: nat)
    requires IsRun(cfg, r) && j < |r.turns| && r.turns[j].call.MintSession?
    ensures
      !r.answers[j].Rejected?
      <==> OpenAt(r, j) && IsRecorded(r.turns[j]) && ActiveAt(cfg, r, j, r.turns[j].call.grantID, r.turns[j].now)
    ensures !r.answers[j].Rejected? ==>
      var c, now := r.turns[j].call, r.turns[j].now;
      exists p | 0 <= p < j :: Pairs(r, p, c.grantID) && r.answers[j] == Minted(SessionToken(
        c.newSession, c.grantID, r.answers[p].grant.agentID, now, now + cfg.sessionTTLMinutes * MINUTE, false))
  {
    var c := r.turns[j].call;
    assert StepsTo(cfg, r, j);
    TurnsAreOver(cfg, r, j);
    OpenIff(cfg, r, j);
    RunWellKeyed(cfg, r, j);
    GrantIsActiveIff(cfg, r, j, c.grantID, r.turns[j].now);
    if c.grantID in r.machines[j].tables.grants {
      var p, u := GrantAt(cfg, r, j, c.grantID);
      assert Pairs(r, p, c.grantID);
    }
  }

  /**
   A revocation is done exactly when the gate is open, it names something, a grant that it names was paired
   and a session that it names was minted and kept by cleanup, and it is recorded.
   */
  lemma RevokedIff(cfg: Lifetimes, r: Run, j: nat)
    requires IsRun(cfg, r) && j < |r.turns| && r.turns[j].call.Revoke?
    ensures
      var c := r.turns[j].call;
      !r.answers[j].Rejected?
      <==> && OpenAt(r, j) && IsRecorded(r.turns[j]) && (TrimSpace(c.grantID) != "" || TrimSpace(c.sessionID) != "")
           && (TrimSpace(c.grantID) != "" ==> exists p | 0 <= p < j :: Pairs(r, p, c.grantID))
           && (TrimSpace(c.sessionID) != "" ==> exists m | 0 <= m < j :: Mints(r, m, c.sessionID) && Kept(cfg, r, m, j, c.sessionID))
  {
    var c := r.turns[j].call;
    assert StepsTo(cfg, r, j);
    OpenIff(cfg, r, j);
    GrantIsStoredIff(cfg, r, j, c.grantID);
    SessionIsStoredIff(cfg, r, j, c.sessionID);
  }

  lemma GrantIsStoredIff(cfg: Lifetimes, r: Run, i: nat, id: string)
    requires IsRun(cfg, r) && i < |r.machines|
    ensures id in r.machines[i].tables.grants <==> exists p | 0 <= p < i :: Pairs(r, p, id)
  {
    if id in r.machines[i].tables.grants {
      var p, u := GrantAt(cfg, r, i, id);
      assert Pairs(r, p, id);
    }
    forall p | 0 <= p < i && Pairs(r, p, id) ensures id in r.machines[i].tables.grants {
      PairedIsStored(cfg, r, p, i, id);
    }
  }

  lemma SessionIsStoredIff(cfg: Lifetimes, r: Run, i: nat, token: string)
    requires IsRun(cfg, r) && i < |r.machines|
    ensures token in r.machines[i].tables.sessions <==> exists m | 0 <= m < i :: Mints(r, m, token) && Kept(cfg, r, m, i, token)
  {
    if token in r.machines[i].tables.sessions {
      var m := SessionHasStory(cfg, r, i, token);
      StoryIsMint(cfg, r, i, token, m);
      SessionAt(cfg, r, m, i, token);
    }
    forall m | 0 <= m < i && Mints(r, m, token) && Kept(cfg, r, m, i, token) ensures token in r.machines[i].tables.sessions {
      SessionAt(cfg, r, m, i, token);
    }
  }

  /** Whoever is authenticated is the agent that was paired. */
  lemma AuthenticatedAgent(cfg: Lifetimes, r: Run, j: nat) returns (p: nat, m: nat)
    requires IsRun(cfg, r) && j < |r.turns| && r.turns[j].call.Authenticate? && !r.answers[j].Rejected?
    ensures p < m < j && Mints(r, m, r.turns[j].call.token) && Pairs(r, p, r.turns[m].call.grantID)
    ensures r.answers[j] == Authenticated(r.answers[p].grant.agentID)
  {
    var token := r.turns[j].call.token;
    assert StepsTo(cfg, r, j);
    m := SessionHasStory(cfg, r, j, token);
    StoryIsMint(cfg, r, j, token, m);
    SessionAt(cfg, r, m, j, token);
    MintedIff(cfg, r, m);
    p :| 0 <= p < m && Pairs(r, p, r.turns[m].call.grantID)
         && r.answers[m].session.agentID == r.answers[p].grant.agentID;
  }

  /** Why a call was turned away, in the tables it found: each reason that is given holds. */
  predicate Because(t: Tables, u: Turn, reason: Reason) {
    match u.call
    case CreateBootstrap(agentID, containerID, _) => reason.MissingField? && (TrimSpace(agentID) == "" || TrimSpace(containerID) == "")
    case CompletePairing(token, containerID, _) =>
      (match reason
       case MissingField => TrimSpace(token) == "" || TrimSpace(containerID) == ""
       case NotFound => token !in t.bootstrap
       case AlreadyUsed => token in t.bootstrap && t.bootstrap[token].used
       case ContainerMismatch => token in t.bootstrap && t.bootstrap[token].containerID != containerID
       case Expired => token in t.bootstrap && t.bootstrap[token].expiresAt <= u.now
       case _ => false)
    case MintSession(grantID, _) =>
      (match reason
       case NotFound => grantID !in t.grants
       case GrantInactive =>
         && grantID in t.grants
         && (t.grants[grantID].revoked || t.grants[grantID].idleExpiresAt <= u.now || t.grants[grantID].absoluteExpiresAt <= u.now)
       case _ => false)
    case Revoke(grantID, sessionID) =>
      (match reason
       case MissingField => TrimSpace(grantID) == "" && TrimSpace(sessionID) == ""
       case NotFound =>
         (TrimSpace(grantID) != "" && grantID !in t.grants) || (TrimSpace(sessionID) != "" && sessionID !in t.sessions)
       case _ => false)
    case Authenticate(token) =>
      (match reason
       case MissingField => token == ""
       case NotFound => token !in t.sessions || t.sessions[token].grantID !in t.grants
       case SessionRevoked => token in t.sessions && t.sessions[token].revoked
       case Expired => token in t.sessions && t.sessions[token].expiresAt <= u.now
       case GrantInactive =>
         && token in t.sessions && t.sessions[token].grantID in t.grants
         && var g := t.grants[t.sessions[token].grantID];
         g.revoked || g.idleExpiresAt <= u.later || g.absoluteExpiresAt <= u.later
       case _ => false)
    case CleanupPass => false
  }

  lemma RejectionMeans(cfg: Lifetimes, m: Machine, u: Turn)
    requires Serve(cfg, m, u).1.Rejected?
    ensures
      var reason := Serve(cfg, m, u).1.reason;
      && (reason.GateClosed? <==> !u.call.Authenticate? && !u.call.CleanupPass? && (!m.open || u.shut))
      && (reason.Unrecorded? ==> !(u.persisted && u.audited))
      && (reason.GateClosed? || reason.Unrecorded? || Because(m.tables, u, reason))
  {
  }
}
