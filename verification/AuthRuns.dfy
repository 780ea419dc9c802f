/** Properties of whole runs of the auth lifecycle, with failures, revocations and cleanup passes anywhere. */
module AuthRuns {
  import opened Text
  import opened Time
  import opened Durability
  import opened AuthModel
  import opened AuthLifecycle

  /** A run from empty tables: machines between the calls, what each call met, and its answer. */
  datatype Run = Run(machines: seq<Machine>, turns: seq<Turn>, answers: seq<Answer>)

  predicate OrderedTimes(turns: seq<Turn>) {
    && (forall i | 0 <= i < |turns| :: turns[i].now <= turns[i].later)
    && (forall i, j | 0 <= i < j < |turns| :: turns[i].later <= turns[j].now)
  }

  /** No identifier is ever drawn twice. */
  predicate FreshIDs(turns: seq<Turn>) {
    forall i, j | 0 <= i < j < |turns| :: !SameNewID(turns[i].call, turns[j].call)
  }

  predicate SameNewID(c: AuthCall, c': AuthCall) {
    || (c.CreateBootstrap? && c'.CreateBootstrap? && c.newToken == c'.newToken)
    || (c.CompletePairing? && c'.CompletePairing? && c.newGrantID == c'.newGrantID)
    || (c.MintSession? && c'.MintSession? && c.newSession == c'.newSession)
  }

  ghost predicate IsRun(cfg: Lifetimes, r: Run) {
    && |r.machines| == |r.turns| + 1 && |r.answers| == |r.turns|
    && r.machines[0].tables == Tables(map[], map[], map[])
    && (forall i | 0 <= i < |r.turns| :: StepsTo(cfg, r, i))
    && OrderedTimes(r.turns)
    && FreshIDs(r.turns)
  }

  ghost predicate StepsTo(cfg: Lifetimes, r: Run, i: nat)
    requires i < |r.turns| < |r.machines| && |r.answers| == |r.turns|
  {
    (r.machines[i + 1], r.answers[i]) == Serve(cfg, r.machines[i], r.turns[i])
  }

  // Runs of the class

  /** Other parts of the daemon used the clock, the sink and the gate. */
  ghost predicate Meanwhile(pre: AuthView, post: AuthView) {
    && post == pre.(open := post.open, log := post.log, clock := post.clock)
    && (post.open ==> pre.open)
    && Quietly(pre.log, post.log)
    && pre.clock <= post.clock
  }

  /** A handler call, after a stretch in which the gate may have been closed from elsewhere. */
  ghost predicate DaemonStep(cfg: Lifetimes, persists: bool, pre: AuthView, u: Turn, answer: Answer, post: AuthView) {
    exists mid ::
      && Meanwhile(pre, mid) && u.shut == (pre.open && !mid.open)
      && AuthStep(cfg, persists, mid, u.(shut := false), answer, post)
  }

  lemma StepServes(cfg: Lifetimes, persists: bool, pre: AuthView, u: Turn, answer: Answer, post: AuthView)
    requires DaemonStep(cfg, persists, pre, u, answer, post)
    ensures (Machine(post.mem, post.open), answer) == Serve(cfg, Machine(pre.mem, pre.open), u)
    ensures pre.clock <= u.now <= u.later <= post.clock
  {
    var mid :| Meanwhile(pre, mid) && u.shut == (pre.open && !mid.open)
               && AuthStep(cfg, persists, mid, u.(shut := false), answer, post);
    assert Perform(cfg, Machine(mid.mem, mid.open), u.(shut := false)) == Perform(cfg, Machine(mid.mem, mid.open), u);
  }

  ghost predicate IsDaemonRun(cfg: Lifetimes, persists: bool, views: seq<AuthView>, turns: seq<Turn>, answers: seq<Answer>) {
    && |views| == |turns| + 1 && |answers| == |turns|
    && views[0].mem == Tables(map[], map[], map[])
    && (forall i | 0 <= i < |turns| :: DaemonStep(cfg, persists, views[i], turns[i], answers[i], views[i + 1]))
  }

  lemma {:induction false} ClockRuns(cfg: Lifetimes, persists: bool, views: seq<AuthView>, turns: seq<Turn>, answers: seq<Answer>,
                                     i: nat, j: nat)
    requires IsDaemonRun(cfg, persists, views, turns, answers) && i <= j < |views|
    ensures views[i].clock <= views[j].clock
  {
    if i < j {
      ClockRuns(cfg, persists, views, turns, answers, i, j - 1);
      StepServes(cfg, persists, views[j - 1], turns[j - 1], answers[j - 1], views[j]);
    }
  }

  /** Whatever the class does over time, interleaved with the rest of the daemon, is a run. */
  lemma DaemonRunsAreRuns(cfg: Lifetimes, persists: bool, views: seq<AuthView>, turns: seq<Turn>, answers: seq<Answer>)
    requires IsDaemonRun(cfg, persists, views, turns, answers) && FreshIDs(turns)
    ensures IsRun(cfg, Run(seq(|views|, i requires 0 <= i < |views| => Machine(views[i].mem, views[i].open)), turns, answers))
  {
    var r := Run(seq(|views|, i requires 0 <= i < |views| => Machine(views[i].mem, views[i].open)), turns, answers);
    forall i | 0 <= i < |turns| ensures StepsTo(cfg, r, i) && turns[i].now <= turns[i].later {
      StepServes(cfg, persists, views[i], turns[i], answers[i], views[i + 1]);
    }
    forall i, j | 0 <= i < j < |turns| ensures turns[i].later <= turns[j].now {
      StepServes(cfg, persists, views[i], turns[i], answers[i], views[i + 1]);
      ClockRuns(cfg, persists, views, turns, answers, i + 1, j);
      StepServes(cfg, persists, views[j], turns[j], answers[j], views[j + 1]);
    }
  }

  // All or nothing

  /** A rejected call, for whatever reason, leaves the tables as they were. */
  lemma RejectionChangesNothing(cfg: Lifetimes, m: Machine, u: Turn)
    requires Serve(cfg, m, u).1.Rejected?
    ensures Serve(cfg, m, u).0.tables == m.tables
  {
  }

  /** A handler call, or a stretch in which other parts of the daemon use the clock, the sink and the gate. */
  ghost predicate NextView(cfg: Lifetimes, persists: bool, pre: AuthView, post: AuthView) {
    (exists u, answer :: AuthStep(cfg, persists, pre, u, answer, post)) || Meanwhile(pre, post)
  }

  /** While the gate is open, the persisted tables are the tables in memory, cleanup passes included. */
  lemma {:induction false} SnapshotIsTablesWhileOpen(cfg: Lifetimes, views: seq<AuthView>, i: nat)
    requires i < |views| && views[0].disk == views[0].mem
    requires forall k | 0 <= k < |views| - 1 :: NextView(cfg, true, views[k], views[k + 1])
    ensures views[i].open ==> views[i].disk == views[i].mem
  {
    if i > 0 {
      SnapshotIsTablesWhileOpen(cfg, views, i - 1);
      var pre, post := views[i - 1], views[i];
      assert NextView(cfg, true, pre, post);
      if exists u, answer :: AuthStep(cfg, true, pre, u, answer, post) {
        var u, answer :| AuthStep(cfg, true, pre, u, answer, post);
        StepKeepsSnapshot(cfg, pre, u, answer, post);
      }
    }
  }

  lemma StepKeepsSnapshot(cfg: Lifetimes, pre: AuthView, u: Turn, answer: Answer, post: AuthView)
    requires AuthStep(cfg, true, pre, u, answer, post) && (pre.open ==> pre.disk == pre.mem)
    ensures post.open ==> post.disk == post.mem
    ensures answer.Rejected? ==> post.mem == pre.mem
  {
  }

  // Where grants and sessions come from

  ghost predicate WellKeyed(t: Tables) {
    && (forall k | k in t.grants :: t.grants[k].grantID == k)
    && (forall k | k in t.sessions :: t.sessions[k].token == k)
  }

  lemma {:induction false} RunWellKeyed(cfg: Lifetimes, r: Run, i: nat)
    requires IsRun(cfg, r) && i < |r.machines|
    ensures WellKeyed(r.machines[i].tables)
  {
    if i > 0 {
      RunWellKeyed(cfg, r, i - 1);
      assert StepsTo(cfg, r, i - 1);
      AttemptWellKeyed(cfg, r.machines[i - 1].tables, r.turns[i - 1]);
    }
  }

  lemma AttemptWellKeyed(cfg: Lifetimes, t: Tables, u: Turn)
    requires WellKeyed(t)
    ensures WellKeyed(Attempt(cfg, t, u.call, u.now, u.later).0)
  {
  }

  predicate UseOf(a: Answer, id: string) {
    (a.Paired? && a.grant.grantID == id) || (a.Minted? && a.session.grantID == id)
  }

  /** The instant that a successful pairing or mint counts from. */
  function UseTime(u: Turn): int {
    if u.call.CompletePairing? then u.later else u.now
  }

  /** Grant `id` of machine `i` goes back to pairing `p`, and was last used by turn `u`. */
  ghost predicate GrantStory(cfg: Lifetimes, r: Run, i: nat, id: string, p: nat, u: nat)
    requires IsRun(cfg, r) && i < |r.machines| && id in r.machines[i].tables.grants
  {
    var g := r.machines[i].tables.grants[id];
    && p <= u < i
    && r.turns[p].call.CompletePairing? && r.turns[p].call.newGrantID == id
    && r.answers[p] == Paired(NewGrant(cfg, id, g.agentID, g.containerID, r.turns[p].later))
    && g.createdAt == r.turns[p].later
    && g.absoluteExpiresAt == r.turns[p].later + cfg.grantAbsoluteMaxMinutes * MINUTE
    && UseOf(r.answers[u], id)
    && g.idleExpiresAt == UseTime(r.turns[u]) + cfg.grantIdleTimeoutMinutes * MINUTE
    && forall v | u < v < i :: !UseOf(r.answers[v], id)
  }

  /** What one step does to a grant that was there before. */
  lemma GrantAfterStep(cfg: Lifetimes, m: Machine, u: Turn, id: string)
    requires WellKeyed(m.tables) && id in m.tables.grants
    requires u.call.CompletePairing? ==> u.call.newGrantID != id
    ensures id in Serve(cfg, m, u).0.tables.grants
    ensures
      var (m', answer) := Serve(cfg, m, u);
      var g, g' := m.tables.grants[id], m'.tables.grants[id];
      if UseOf(answer, id) then g' == Renewed(cfg, g, u.now) && u.call.MintSession? else g' == g.(revoked := g'.revoked)
  {
  }

  lemma StoryGoesOn(cfg: Lifetimes, r: Run, i: nat, id: string, p: nat, u: nat) returns (u': nat)
    requires IsRun(cfg, r) && i < |r.turns| && id in r.machines[i].tables.grants && GrantStory(cfg, r, i, id, p, u)
    requires r.turns[i].call.CompletePairing? ==> r.turns[i].call.newGrantID != id
    ensures id in r.machines[i + 1].tables.grants && GrantStory(cfg, r, i + 1, id, p, u')
  {
    assert StepsTo(cfg, r, i);
    RunWellKeyed(cfg, r, i);
    GrantAfterStep(cfg, r.machines[i], r.turns[i], id);
    u' := if UseOf(r.answers[i], id) then i else u;
  }

  lemma {:induction false} GrantHasStory(cfg: Lifetimes, r: Run, i: nat, id: string) returns (p: nat, u: nat)
    requires IsRun(cfg, r) && i < |r.machines| && id in r.machines[i].tables.grants
    ensures GrantStory(cfg, r, i, id, p, u)
  {
    if i == 0 {
      assert false;
    } else if id !in r.machines[i - 1].tables.grants {
      p, u := i - 1, i - 1;
      GrantStoryBegins(cfg, r, i - 1, id);
    } else {
      p, u := GrantHasStory(cfg, r, i - 1, id);
      assert !SameNewID(r.turns[p].call, r.turns[i - 1].call);
      u := StoryGoesOn(cfg, r, i - 1, id, p, u);
    }
  }

  lemma GrantStoryBegins(cfg: Lifetimes, r: Run, i: nat, id: string)
    requires IsRun(cfg, r) && i < |r.turns|
    requires id !in r.machines[i].tables.grants && id in r.machines[i + 1].tables.grants
    ensures GrantStory(cfg, r, i + 1, id, i, i)
  {
    assert StepsTo(cfg, r, i);
    RunWellKeyed(cfg, r, i);
  }

  /** A new grant identifier is not yet in use. */
  lemma NewGrantUnused(cfg: Lifetimes, r: Run, i: nat)
    requires IsRun(cfg, r) && i < |r.turns| && r.turns[i].call.CompletePairing?
    ensures r.turns[i].call.newGrantID !in r.machines[i].tables.grants
  {
    var id := r.turns[i].call.newGrantID;
    if id in r.machines[i].tables.grants {
      var p, u := GrantHasStory(cfg, r, i, id);
      assert SameNewID(r.turns[p].call, r.turns[i].call);
    }
  }

  /** Session `tok` of machine `i` was minted by turn `m` from a grant that still exists and has the same agent. */
  ghost predicate SessionStory(cfg: Lifetimes, r: Run, i: nat, tok: string, m: nat)
    requires IsRun(cfg, r) && i < |r.machines| && tok in r.machines[i].tables.sessions
  {
    var s := r.machines[i].tables.sessions[tok];
    && m < i
    && r.answers[m].Minted? && r.answers[m].session.(revoked := s.revoked) == s
    && s.expiresAt == r.turns[m].now + cfg.sessionTTLMinutes * MINUTE
    && s.grantID in r.machines[i].tables.grants
    && r.machines[i].tables.grants[s.grantID].agentID == s.agentID
  }

  lemma {:induction false} SessionHasStory(cfg: Lifetimes, r: Run, i: nat, tok: string) returns (m: nat)
    requires IsRun(cfg, r) && i < |r.machines| && tok in r.machines[i].tables.sessions
    ensures SessionStory(cfg, r, i, tok, m)
  {
    if i == 0 {
      assert false;
    } else {
      assert StepsTo(cfg, r, i - 1);
      RunWellKeyed(cfg, r, i - 1);
      var before, turn, answer := r.machines[i - 1].tables, r.turns[i - 1], r.answers[i - 1];
      if answer.Minted? && turn.call.newSession == tok {
        m := i - 1;
        SessionStoryBegins(cfg, r, i - 1);
      } else {
        SessionWasThere(cfg, r.machines[i - 1], turn, tok);
        m := SessionHasStory(cfg, r, i - 1, tok);
        SessionStoryGoesOn(cfg, r, i - 1, tok, m);
      }
    }
  }

  lemma SessionStoryBegins(cfg: Lifetimes, r: Run, i: nat)
    requires IsRun(cfg, r) && i < |r.turns| && WellKeyed(r.machines[i].tables)
    requires r.answers[i].Minted? && r.turns[i].call.MintSession?
    ensures r.turns[i].call.newSession in r.machines[i + 1].tables.sessions
    ensures SessionStory(cfg, r, i + 1, r.turns[i].call.newSession, i)
  {
    assert StepsTo(cfg, r, i);
  }

  /** A session that the call did not mint was there before, the same but for its revocation. */
  lemma SessionWasThere(cfg: Lifetimes, m: Machine, u: Turn, tok: string)
    requires tok in Serve(cfg, m, u).0.tables.sessions
    requires !(Serve(cfg, m, u).1.Minted? && u.call.MintSession? && u.call.newSession == tok)
    ensures tok in m.tables.sessions
    ensures var after := Serve(cfg, m, u).0.tables.sessions[tok]; m.tables.sessions[tok].(revoked := after.revoked) == after
  {
  }

  lemma SessionStoryGoesOn(cfg: Lifetimes, r: Run, i: nat, tok: string, m: nat)
    requires IsRun(cfg, r) && i < |r.turns|
    requires tok in r.machines[i].tables.sessions && SessionStory(cfg, r, i, tok, m)
    requires tok in r.machines[i + 1].tables.sessions
    requires !(r.answers[i].Minted? && r.turns[i].call.MintSession? && r.turns[i].call.newSession == tok)
    ensures SessionStory(cfg, r, i + 1, tok, m)
  {
    assert StepsTo(cfg, r, i);
    SessionWasThere(cfg, r.machines[i], r.turns[i], tok);
    RunWellKeyed(cfg, r, i);
    if r.turns[i].call.CompletePairing? {
      NewGrantUnused(cfg, r, i);
    }
  }

  /** A bootstrap token in the tables was made by an earlier call that drew it. */
  lemma {:induction false} BootstrapHasStory(cfg: Lifetimes, r: Run, i: nat, k: string) returns (c: nat)
    requires IsRun(cfg, r) && i < |r.machines| && k in r.machines[i].tables.bootstrap
    ensures c < i && r.turns[c].call.CreateBootstrap? && r.turns[c].call.newToken == k
    ensures r.answers[c] == Bootstrapped(r.machines[i].tables.bootstrap[k].(used := false))
    ensures TrimSpace(r.machines[i].tables.bootstrap[k].containerID) != ""
  {
    if i == 0 {
      assert false;
    } else {
      assert StepsTo(cfg, r, i - 1);
      if r.answers[i - 1].Bootstrapped? && r.turns[i - 1].call.newToken == k {
        c := i - 1;
      } else {
        c := BootstrapHasStory(cfg, r, i - 1, k);
      }
    }
  }

  /** Every grant carries the agent and the container of the bootstrap token that it was paired with. */
  lemma GrantCarriesItsToken(cfg: Lifetimes, r: Run, i: nat, id: string) returns (c: nat, p: nat)
    requires IsRun(cfg, r) && i < |r.machines| && id in r.machines[i].tables.grants
    ensures c < p < i
    ensures r.answers[c].Bootstrapped? && r.answers[p].Paired? && r.answers[p].grant.grantID == id
    ensures r.turns[c].call.CreateBootstrap? && r.turns[p].call.CompletePairing?
    ensures r.turns[p].call.token == r.turns[c].call.newToken
    ensures
      var g, b := r.machines[i].tables.grants[id], r.answers[c].bootstrapToken;
      g.agentID == b.agentID && g.containerID == b.containerID
  {
    var u;
    p, u := GrantHasStory(cfg, r, i, id);
    assert StepsTo(cfg, r, p);
    c := BootstrapHasStory(cfg, r, p, r.turns[p].call.token);
  }

  // One pairing per bootstrap token

  lemma {:induction false} TokenStaysUsed(cfg: Lifetimes, r: Run, i: nat, j: nat)
    requires IsRun(cfg, r) && i < j < |r.machines| && r.answers[i].Paired?
    ensures r.turns[i].call.CompletePairing?
    ensures
      var k, t := r.turns[i].call.token, r.machines[j].tables.bootstrap;
      k in t ==> t[k].used
  {
    PairedUsesToken(cfg, r, i);
    if j > i + 1 {
      TokenStaysUsed(cfg, r, i, j - 1);
      assert StepsTo(cfg, r, j - 1);
      var c := BootstrapHasStory(cfg, r, i, r.turns[i].call.token);
      assert !SameNewID(r.turns[c].call, r.turns[j - 1].call);
      UsedAfterStep(cfg, r.machines[j - 1], r.turns[j - 1], r.turns[i].call.token);
    }
  }

  lemma PairedUsesToken(cfg: Lifetimes, r: Run, i: nat)
    requires IsRun(cfg, r) && i < |r.turns| && r.answers[i].Paired?
    ensures r.turns[i].call.CompletePairing? && r.turns[i].call.token in r.machines[i].tables.bootstrap
    ensures
      var k, t := r.turns[i].call.token, r.machines[i + 1].tables.bootstrap;
      k in t && t[k].used
  {
    assert StepsTo(cfg, r, i);
  }

  /** Only a call that draws the same token again could put it back unused. */
  lemma UsedAfterStep(cfg: Lifetimes, m: Machine, u: Turn, k: string)
    requires k in m.tables.bootstrap ==> m.tables.bootstrap[k].used
    requires u.call.CreateBootstrap? ==> u.call.newToken != k
    ensures var t := Serve(cfg, m, u).0.tables.bootstrap; k in t ==> t[k].used
  {
  }

  /** A bootstrap token yields at most one successful pairing, whatever rollbacks and cleanups come between. */
  lemma OnePairingPerToken(cfg: Lifetimes, r: Run, i: nat, j: nat)
    requires IsRun(cfg, r) && i < j < |r.turns|
    requires r.answers[i].Paired? && r.answers[j].Paired?
    ensures r.turns[i].call.CompletePairing? && r.turns[j].call.CompletePairing?
    ensures r.turns[i].call.token != r.turns[j].call.token
  {
    assert StepsTo(cfg, r, j);
    TokenStaysUsed(cfg, r, i, j);
  }

  // Inactive grants stay inactive

  lemma StepKeepsInactive(cfg: Lifetimes, m: Machine, u: Turn, id: string, t: int)
    requires WellKeyed(m.tables) && id in m.tables.grants && !m.tables.grants[id].Active(t) && t <= u.now
    requires u.call.CompletePairing? ==> u.call.newGrantID !in m.tables.grants
    ensures id in Serve(cfg, m, u).0.tables.grants
    ensures !Serve(cfg, m, u).0.tables.grants[id].Active(t)
  {
  }

  /** A grant that is revoked, idle or over age at `t` is inactive at every later point of the run. */
  lemma {:induction false} InactiveForever(cfg: Lifetimes, r: Run, i: nat, j: nat, id: string, t: int, t': int)
    requires IsRun(cfg, r) && i <= j < |r.machines| && t <= t'
    requires i < |r.turns| ==> t <= r.turns[i].now
    requires id in r.machines[i].tables.grants && !r.machines[i].tables.grants[id].Active(t)
    ensures id in r.machines[j].tables.grants && !r.machines[j].tables.grants[id].Active(t')
  {
    if i < j {
      InactiveForever(cfg, r, i, j - 1, id, t, t);
      assert StepsTo(cfg, r, j - 1);
      RunWellKeyed(cfg, r, j - 1);
      if r.turns[j - 1].call.CompletePairing? {
        NewGrantUnused(cfg, r, j - 1);
      }
      if i < j - 1 {
        assert r.turns[i].now <= r.turns[i].later <= r.turns[j - 1].now;
      }
      StepKeepsInactive(cfg, r.machines[j - 1], r.turns[j - 1], id, t);
    }
  }

  /** Turn `k` successfully revoked grant `id`. */
  predicate Revokes(r: Run, k: nat, id: string)
    requires k < |r.turns| == |r.answers|
  {
    r.answers[k].RevocationDone? && r.turns[k].call.Revoke? && r.turns[k].call.grantID == id && TrimSpace(id) != ""
  }

  lemma RevokedIsInactive(cfg: Lifetimes, r: Run, k: nat, j: nat, id: string, t: int)
    requires IsRun(cfg, r) && k < j < |r.machines| && Revokes(r, k, id)
    ensures id in r.machines[j].tables.grants && !r.machines[j].tables.grants[id].Active(t)
  {
    assert StepsTo(cfg, r, k);
    assert r.machines[k + 1].tables.grants[id].revoked;
    var early := if k + 1 < |r.turns| && r.turns[k + 1].now < t then r.turns[k + 1].now else t;
    InactiveForever(cfg, r, k + 1, j, id, early, t);
  }

  /**
   A session is accepted only within its own lifetime, within the absolute lifetime of the pairing
   behind it, within the idle timeout of the last pairing or mint of its grant, for the agent that
   was paired, and if its grant was never revoked.
   */
  lemma AcceptedSessionIsInTime(cfg: Lifetimes, r: Run, j: nat) returns (p: nat, m: nat, u: nat)
    requires IsRun(cfg, r) && j < |r.turns| && r.answers[j].Authenticated?
    ensures p < j && m < j && p <= u < j
    ensures r.turns[j].call.Authenticate? && r.answers[m].Minted? && r.answers[p].Paired?
    ensures r.answers[m].session.token == r.turns[j].call.token
    ensures r.answers[m].session.grantID == r.answers[p].grant.grantID
    ensures r.answers[j].agentID == r.answers[p].grant.agentID
    ensures r.turns[j].now < r.turns[m].now + cfg.sessionTTLMinutes * MINUTE
    ensures r.turns[j].later < r.turns[p].later + cfg.grantAbsoluteMaxMinutes * MINUTE
    ensures UseOf(r.answers[u], r.answers[p].grant.grantID)
    ensures forall v | u < v < j :: !UseOf(r.answers[v], r.answers[p].grant.grantID)
    ensures r.turns[j].later < UseTime(r.turns[u]) + cfg.grantIdleTimeoutMinutes * MINUTE
    ensures forall k | 0 <= k < j :: !Revokes(r, k, r.answers[p].grant.grantID)
  {
    assert StepsTo(cfg, r, j);
    var tok := r.turns[j].call.token;
    RunWellKeyed(cfg, r, j);
    m := SessionHasStory(cfg, r, j, tok);
    var id := r.machines[j].tables.sessions[tok].grantID;
    p, u := GrantHasStory(cfg, r, j, id);
    forall k | 0 <= k < j ensures !Revokes(r, k, id) {
      if Revokes(r, k, id) {
        RevokedIsInactive(cfg, r, k, j, id, r.turns[j].later);
      }
    }
  }
}
