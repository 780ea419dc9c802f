/** Cleanup passes are invisible to pairing, minting and authentication. */
module AuthCleanup {
  import opened Prelude
  import opened Text
  import opened AuthModel

  // What still counts at `now`

  predicate SameBootstrap(a: Tables, b: Tables, now: int, k: string) {
    var liveA, liveB := k in a.bootstrap && a.bootstrap[k].Usable(now), k in b.bootstrap && b.bootstrap[k].Usable(now);
    liveA == liveB && (liveA ==> a.bootstrap[k] == b.bootstrap[k])
  }

  predicate SameGrant(a: Tables, b: Tables, now: int, k: string) {
    && (k in a.grants <==> k in b.grants)
    && (k in a.grants ==>
          && a.grants[k].Active(now) == b.grants[k].Active(now)
          && (a.grants[k].Active(now) ==> a.grants[k] == b.grants[k]))
  }

  predicate SameSession(a: Tables, b: Tables, now: int, k: string) {
    var liveA, liveB := k in a.sessions && a.sessions[k].Live(now), k in b.sessions && b.sessions[k].Live(now);
    liveA == liveB && (liveA ==> a.sessions[k] == b.sessions[k])
  }

  /** From `now` on, the two states answer alike: they differ only in what is dead. */
  ghost predicate Alike(a: Tables, b: Tables, now: int) {
    && (forall k :: SameBootstrap(a, b, now, k))
    && (forall k :: SameGrant(a, b, now, k))
    && (forall k :: SameSession(a, b, now, k))
  }

  /** What a cleanup leaves under one name: of tokens and sessions what is alive, and of grants all, the dead ones revoked. */
  lemma CleanedMeans(t: Tables, now: int, k: string)
    ensures
      var t' := Cleaned(t, now);
      && (k in t'.bootstrap <==> k in t.bootstrap && !t.bootstrap[k].used && now < t.bootstrap[k].expiresAt)
      && (k in t'.bootstrap ==> t'.bootstrap[k] == t.bootstrap[k])
      && (k in t'.sessions <==> k in t.sessions && !t.sessions[k].revoked && now < t.sessions[k].expiresAt)
      && (k in t'.sessions ==> t'.sessions[k] == t.sessions[k])
      && (k in t'.grants <==> k in t.grants)
      && (k in t.grants ==>
            var g := t.grants[k];
            t'.grants[k] == g.(revoked := g.revoked || now >= g.idleExpiresAt || now >= g.absoluteExpiresAt))
  {
  }

  lemma CleanedIsAlike(t: Tables, now: int)
    ensures Alike(t, Cleaned(t, now), now)
  {
  }

  lemma AlikeLater(a: Tables, b: Tables, now: int, later: int)
    requires Alike(a, b, now) && now <= later
    ensures Alike(a, b, later)
  {
    forall k ensures SameBootstrap(a, b, later, k) { assert SameBootstrap(a, b, now, k); }
    forall k ensures SameGrant(a, b, later, k) { assert SameGrant(a, b, now, k); }
    forall k ensures SameSession(a, b, later, k) { assert SameSession(a, b, now, k); }
  }

  lemma AlikeTransitive(a: Tables, b: Tables, c: Tables, now: int)
    requires Alike(a, b, now) && Alike(b, c, now)
    ensures Alike(a, c, now)
  {
    forall k ensures SameBootstrap(a, c, now, k) { assert SameBootstrap(a, b, now, k) && SameBootstrap(b, c, now, k); }
    forall k ensures SameGrant(a, c, now, k) { assert SameGrant(a, b, now, k) && SameGrant(b, c, now, k); }
    forall k ensures SameSession(a, c, now, k) { assert SameSession(a, b, now, k) && SameSession(b, c, now, k); }
  }

  // Alike states answer alike

  /** The answer as far as accepting is concerned: all rejections count as one. */
  function Verdict(a: Answer): Option<Answer> {
    if a.Rejected? then None else Some(a)
  }

  /** A revocation that names a grant and nothing else, or any other call but a cleanup pass. */
  predicate Ordinary(c: AuthCall) {
    !c.CleanupPass? && (c.Revoke? ==> TrimSpace(c.sessionID) == "")
  }

  lemma AttemptAlike(cfg: Lifetimes, a: Tables, b: Tables, c: AuthCall, now: int, later: int)
    requires Alike(a, b, now) && now <= later && Ordinary(c)
    ensures Verdict(Attempt(cfg, a, c, now, later).1) == Verdict(Attempt(cfg, b, c, now, later).1)
    ensures Alike(Attempt(cfg, a, c, now, later).0, Attempt(cfg, b, c, now, later).0, later)
  {
    AlikeLater(a, b, now, later);
    match c
    case CreateBootstrap(_, _, newToken) => CreateAlike(cfg, a, b, c, now, later);
    case CompletePairing(token, containerID, newGrantID) => PairAlike(cfg, a, b, c, now, later);
    case MintSession(grantID, newSession) => MintAlike(cfg, a, b, c, now, later);
    case Revoke(grantID, _) => RevokeAlike(cfg, a, b, c, now, later);
    case Authenticate(token) => AuthenticateAlike(a, b, token, now, later);
  }

  lemma CreateAlike(cfg: Lifetimes, a: Tables, b: Tables, c: AuthCall, now: int, later: int)
    requires Alike(a, b, later) && c.CreateBootstrap?
    ensures Verdict(Attempt(cfg, a, c, now, later).1) == Verdict(Attempt(cfg, b, c, now, later).1)
    ensures Alike(Attempt(cfg, a, c, now, later).0, Attempt(cfg, b, c, now, later).0, later)
  {
    var a', b' := Attempt(cfg, a, c, now, later).0, Attempt(cfg, b, c, now, later).0;
    forall k ensures SameBootstrap(a', b', later, k) { assert SameBootstrap(a, b, later, k); }
    forall k ensures SameGrant(a', b', later, k) { assert SameGrant(a, b, later, k); }
    forall k ensures SameSession(a', b', later, k) { assert SameSession(a, b, later, k); }
  }

  lemma PairAlike(cfg: Lifetimes, a: Tables, b: Tables, c: AuthCall, now: int, later: int)
    requires Alike(a, b, now) && Alike(a, b, later) && c.CompletePairing?
    ensures Verdict(Attempt(cfg, a, c, now, later).1) == Verdict(Attempt(cfg, b, c, now, later).1)
    ensures Alike(Attempt(cfg, a, c, now, later).0, Attempt(cfg, b, c, now, later).0, later)
  {
    assert SameBootstrap(a, b, now, c.token);
    var a', b' := Attempt(cfg, a, c, now, later).0, Attempt(cfg, b, c, now, later).0;
    forall k ensures SameBootstrap(a', b', later, k) { PairBootstrap(cfg, a, b, c, now, later, k); }
    forall k ensures SameGrant(a', b', later, k) { assert SameGrant(a, b, later, k); }
    forall k ensures SameSession(a', b', later, k) { assert SameSession(a, b, later, k); }
  }

  lemma PairBootstrap(cfg: Lifetimes, a: Tables, b: Tables, c: AuthCall, now: int, later: int, k: string)
    requires c.CompletePairing? && SameBootstrap(a, b, now, c.token) && SameBootstrap(a, b, later, k)
    ensures SameBootstrap(Attempt(cfg, a, c, now, later).0, Attempt(cfg, b, c, now, later).0, later, k)
  {
  }

  lemma MintAlike(cfg: Lifetimes, a: Tables, b: Tables, c: AuthCall, now: int, later: int)
    requires Alike(a, b, now) && Alike(a, b, later) && c.MintSession?
    ensures Verdict(Attempt(cfg, a, c, now, later).1) == Verdict(Attempt(cfg, b, c, now, later).1)
    ensures Alike(Attempt(cfg, a, c, now, later).0, Attempt(cfg, b, c, now, later).0, later)
  {
    assert SameGrant(a, b, now, c.grantID);
    var a', b' := Attempt(cfg, a, c, now, later).0, Attempt(cfg, b, c, now, later).0;
    forall k ensures SameBootstrap(a', b', later, k) { assert SameBootstrap(a, b, later, k); }
    forall k ensures SameGrant(a', b', later, k) { assert SameGrant(a, b, later, k); }
    forall k ensures SameSession(a', b', later, k) { assert SameSession(a, b, later, k); }
  }

  lemma RevokeAlike(cfg: Lifetimes, a: Tables, b: Tables, c: AuthCall, now: int, later: int)
    requires Alike(a, b, later) && c.Revoke? && TrimSpace(c.sessionID) == ""
    ensures Verdict(Attempt(cfg, a, c, now, later).1) == Verdict(Attempt(cfg, b, c, now, later).1)
    ensures Alike(Attempt(cfg, a, c, now, later).0, Attempt(cfg, b, c, now, later).0, later)
  {
    assert SameGrant(a, b, later, c.grantID);
    var a', b' := Attempt(cfg, a, c, now, later).0, Attempt(cfg, b, c, now, later).0;
    forall k ensures SameBootstrap(a', b', later, k) { assert SameBootstrap(a, b, later, k); }
    forall k ensures SameGrant(a', b', later, k) { assert SameGrant(a, b, later, k); }
    forall k ensures SameSession(a', b', later, k) { assert SameSession(a, b, later, k); }
  }

  lemma AuthenticateAlike(a: Tables, b: Tables, token: string, now: int, later: int)
    requires Alike(a, b, now) && Alike(a, b, later)
    ensures Verdict(AuthenticateAnswer(a, token, now, later)) == Verdict(AuthenticateAnswer(b, token, now, later))
  {
    assert SameSession(a, b, now, token);
    if token in a.sessions && a.sessions[token].Live(now) {
      assert SameGrant(a, b, later, a.sessions[token].grantID);
    }
  }

  lemma AlikeSymmetric(a: Tables, b: Tables, now: int)
    requires Alike(a, b, now)
    ensures Alike(b, a, now)
  {
    forall k ensures SameBootstrap(b, a, now, k) { assert SameBootstrap(a, b, now, k); }
    forall k ensures SameGrant(b, a, now, k) { assert SameGrant(a, b, now, k); }
    forall k ensures SameSession(b, a, now, k) { assert SameSession(a, b, now, k); }
  }

  // Revocations that name a session

  /** Revoking what is named, and leaving the tables alone if any of it is missing. */
  function Revoked(t: Tables, grantID: Option<string>, sessionID: Option<string>): Tables {
    if (grantID.Some? && grantID.value !in t.grants) || (sessionID.Some? && sessionID.value !in t.sessions) then t
    else
      Tables(
        t.bootstrap,
        if grantID.None? then t.grants else t.grants[grantID.value := t.grants[grantID.value].(revoked := true)],
        if sessionID.None? then t.sessions else t.sessions[sessionID.value := t.sessions[sessionID.value].(revoked := true)])
  }

  function Named(id: string): Option<string> {
    if TrimSpace(id) == "" then None else Some(id)
  }

  lemma AttemptRevokes(cfg: Lifetimes, t: Tables, c: AuthCall, now: int, later: int)
    requires c.Revoke?
    ensures Attempt(cfg, t, c, now, later).0 == Revoked(t, Named(c.grantID), Named(c.sessionID))
  {
  }

  /**
   The revocation itself is answered differently: it names a session that only one of the two states
   still holds, and no grant that both of them lack.
   */
  predicate Shows(a: Tables, b: Tables, c: AuthCall) {
    && c.Revoke?
    && Named(c.sessionID).Some? && (c.sessionID in a.sessions) != (c.sessionID in b.sessions)
    && (Named(c.grantID).Some? ==> c.grantID in a.grants)
  }

  /** What is more, the two states no longer agree afterwards: the revocation also names a live grant. */
  predicate Splits(a: Tables, b: Tables, c: AuthCall, now: int) {
    Shows(a, b, c) && Named(c.grantID).Some? && a.grants[c.grantID].Active(now)
  }

  /** A revocation gets the same verdict from alike states exactly when it does not show the difference. */
  lemma RevocationVerdictIff(cfg: Lifetimes, a: Tables, b: Tables, c: AuthCall, now: int, later: int)
    requires Alike(a, b, now) && c.Revoke?
    ensures Verdict(Attempt(cfg, a, c, now, later).1) == Verdict(Attempt(cfg, b, c, now, later).1) <==> !Shows(a, b, c)
  {
    assert SameGrant(a, b, now, c.grantID);
  }

  lemma UnsplitStayAlike(a: Tables, b: Tables, c: AuthCall, now: int)
    requires Alike(a, b, now) && c.Revoke? && !Splits(a, b, c, now)
    ensures Alike(Revoked(a, Named(c.grantID), Named(c.sessionID)), Revoked(b, Named(c.grantID), Named(c.sessionID)), now)
  {
    var a', b' := Revoked(a, Named(c.grantID), Named(c.sessionID)), Revoked(b, Named(c.grantID), Named(c.sessionID));
    forall k ensures SameBootstrap(a', b', now, k) { assert SameBootstrap(a, b, now, k); }
    forall k ensures SameGrant(a', b', now, k) { UnsplitGrant(a, b, c, now, k); }
    forall k ensures SameSession(a', b', now, k) { UnsplitSession(a, b, c, now, k); }
  }

  lemma UnsplitGrant(a: Tables, b: Tables, c: AuthCall, now: int, k: string)
    requires Alike(a, b, now) && c.Revoke? && !Splits(a, b, c, now)
    ensures SameGrant(Revoked(a, Named(c.grantID), Named(c.sessionID)), Revoked(b, Named(c.grantID), Named(c.sessionID)), now, k)
  {
    assert SameGrant(a, b, now, k) && SameGrant(a, b, now, c.grantID);
  }

  lemma UnsplitSession(a: Tables, b: Tables, c: AuthCall, now: int, k: string)
    requires Alike(a, b, now) && c.Revoke?
    ensures SameSession(Revoked(a, Named(c.grantID), Named(c.sessionID)), Revoked(b, Named(c.grantID), Named(c.sessionID)), now, k)
  {
    assert SameSession(a, b, now, k) && SameSession(a, b, now, c.sessionID) && SameGrant(a, b, now, c.grantID);
  }

  /** For every revocation: alike states stay alike exactly when the revocation does not split them. */
  lemma RevocationKeepsAlikeIff(cfg: Lifetimes, a: Tables, b: Tables, c: AuthCall, now: int, later: int)
    requires Alike(a, b, now) && c.Revoke?
    ensures Alike(Attempt(cfg, a, c, now, later).0, Attempt(cfg, b, c, now, later).0, now) <==> !Splits(a, b, c, now)
  {
    AttemptRevokes(cfg, a, c, now, later);
    AttemptRevokes(cfg, b, c, now, later);
    if Splits(a, b, c, now) {
      assert SameGrant(a, b, now, c.grantID);
      assert !SameGrant(Attempt(cfg, a, c, now, later).0, Attempt(cfg, b, c, now, later).0, now, c.grantID);
    } else {
      UnsplitStayAlike(a, b, c, now);
    }
  }

  /** After such a revocation the two states really answer differently: one mints, the other refuses. */
  lemma SplitShowsInMint(cfg: Lifetimes, a: Tables, b: Tables, c: AuthCall, now: int, later: int, newSession: string)
    requires Alike(a, b, now) && Splits(a, b, c, now)
    ensures
      var mint := MintSession(c.grantID, newSession);
      var a', b' := Attempt(cfg, a, c, now, later).0, Attempt(cfg, b, c, now, later).0;
      Verdict(Attempt(cfg, a', mint, now, now).1) != Verdict(Attempt(cfg, b', mint, now, now).1)
  {
    assert SameGrant(a, b, now, c.grantID);
  }

  // Whole runs

  /** A revocation that names a session, whose verdict cleanup may change. */
  predicate RevokesSession(c: AuthCall) {
    c.Revoke? && Named(c.sessionID).Some?
  }

  /** The verdicts on everything but the cleanup passes. */
  function Verdicts(cfg: Lifetimes, m: Machine, us: seq<Turn>): seq<Option<Answer>>
    decreases us
  {
    if us == [] then []
    else
      var (m', answer) := Serve(cfg, m, us[0]);
      (if us[0].call.CleanupPass? then [] else [Verdict(answer)]) + Verdicts(cfg, m', us[1..])
  }

  /** The same without the verdicts on revocations that name a session. */
  function VerdictsOnUse(cfg: Lifetimes, m: Machine, us: seq<Turn>): seq<Option<Answer>>
    decreases us
  {
    if us == [] then []
    else
      var (m', answer) := Serve(cfg, m, us[0]);
      (if us[0].call.CleanupPass? || RevokesSession(us[0].call) then [] else [Verdict(answer)]) + VerdictsOnUse(cfg, m', us[1..])
  }

  /**
   The run without its cleanup passes. If another part of the daemon closed the gate before a pass
   (`shut`), it did so before the call that now comes next.
   */
  function WithoutCleanup(us: seq<Turn>, shut: bool := false): seq<Turn>
    decreases us
  {
    if us == [] then []
    else if us[0].call.CleanupPass? then WithoutCleanup(us[1..], shut || us[0].shut)
    else [us[0].(shut := shut || us[0].shut)] + WithoutCleanup(us[1..])
  }

  function Shut(m: Machine, shut: bool): Machine {
    Machine(m.tables, m.open && !shut)
  }

  function ShutFirst(us: seq<Turn>, shut: bool): seq<Turn> {
    if us == [] then us else [us[0].(shut := shut || us[0].shut)] + us[1..]
  }

  lemma {:induction false} WithoutCleanupShut(us: seq<Turn>, shut: bool)
    ensures WithoutCleanup(us, shut) == ShutFirst(WithoutCleanup(us), shut)
    decreases us
  {
    if us != [] && us[0].call.CleanupPass? {
      WithoutCleanupShut(us[1..], shut || us[0].shut);
      WithoutCleanupShut(us[1..], us[0].shut);
    }
  }

  /** Whether the gate was closed before the first call or is found closed by it is the same. */
  lemma ServeShut(cfg: Lifetimes, m: Machine, u: Turn, shut: bool)
    ensures Serve(cfg, m, u.(shut := shut || u.shut)) == Serve(cfg, Shut(m, shut), u)
  {
  }

  lemma VerdictsShut(cfg: Lifetimes, m: Machine, us: seq<Turn>, shut: bool)
    ensures us != [] ==> Verdicts(cfg, m, ShutFirst(us, shut)) == Verdicts(cfg, Shut(m, shut), us)
    ensures us != [] ==> VerdictsOnUse(cfg, m, ShutFirst(us, shut)) == VerdictsOnUse(cfg, Shut(m, shut), us)
  {
    if us != [] {
      ServeShut(cfg, m, us[0], shut);
    }
  }

  /** Removing the first turn of a run, if it is a pass, leaves at most a closed gate behind. */
  lemma RemovedPass(cfg: Lifetimes, m: Machine, us: seq<Turn>)
    requires us != [] && us[0].call.CleanupPass?
    ensures Verdicts(cfg, m, WithoutCleanup(us)) == Verdicts(cfg, Shut(m, us[0].shut), WithoutCleanup(us[1..]))
    ensures VerdictsOnUse(cfg, m, WithoutCleanup(us)) == VerdictsOnUse(cfg, Shut(m, us[0].shut), WithoutCleanup(us[1..]))
  {
    WithoutCleanupShut(us[1..], us[0].shut);
    VerdictsShut(cfg, m, WithoutCleanup(us[1..]), us[0].shut);
  }

  lemma KeptCall(cfg: Lifetimes, m: Machine, us: seq<Turn>)
    requires us != [] && !us[0].call.CleanupPass?
    ensures WithoutCleanup(us) == [us[0]] + WithoutCleanup(us[1..])
    ensures
      Verdicts(cfg, m, WithoutCleanup(us))
      == [Verdict(Serve(cfg, m, us[0]).1)] + Verdicts(cfg, Serve(cfg, m, us[0]).0, WithoutCleanup(us[1..]))
    ensures
      VerdictsOnUse(cfg, m, WithoutCleanup(us))
      == (if RevokesSession(us[0].call) then [] else [Verdict(Serve(cfg, m, us[0]).1)])
         + VerdictsOnUse(cfg, Serve(cfg, m, us[0]).0, WithoutCleanup(us[1..]))
  {
    var u, rest := us[0], WithoutCleanup(us[1..]);
    assert u.(shut := false || u.shut) == u;
    assert ([u] + rest)[1..] == rest;
  }

  ghost predicate Timely(us: seq<Turn>, from: int) {
    us != [] ==> from <= us[0].now <= us[0].later && Timely(us[1..], us[0].later)
  }

  // When a run and the run without its passes can be told apart

  /** The call asks for nothing that its guards refuse, and what it writes is recorded. */
  predicate Accepts(cfg: Lifetimes, t: Tables, u: Turn) {
    !Attempt(cfg, t, u.call, u.now, u.later).1.Rejected? && u.persisted && u.audited
  }

  /**
   One call gets the same verdict with passes and without them: where the gate is open in both runs
   the call is no recorded revocation that shows the difference, and where it is open in one only,
   that one does not accept the call if it is gated.
   */
  predicate Unseen(cfg: Lifetimes, m: Machine, m': Machine, u: Turn) {
    if m.open && m'.open && !u.shut then !(Shows(m.tables, m'.tables, u.call) && u.persisted && u.audited)
    else if m.open && !u.shut then u.call.Gated() ==> !Accepts(cfg, m.tables, u)
    else if m'.open && !u.shut then u.call.Gated() ==> !Accepts(cfg, m'.tables, u)
    else true
  }

  /** No call of the run `us` from `m` is seen to differ in the run without its cleanup passes from `m'`. */
  predicate Unnoticed(cfg: Lifetimes, m: Machine, m': Machine, us: seq<Turn>)
    decreases us
  {
    us != [] ==>
      var next := Serve(cfg, m, us[0]).0;
      if us[0].call.CleanupPass? then Unnoticed(cfg, next, Shut(m', us[0].shut), us[1..])
      else Unseen(cfg, m, m', us[0]) && Unnoticed(cfg, next, Serve(cfg, m', us[0]).0, us[1..])
  }

  /** A gated call that finds the gate open: accepted as its guards say, and otherwise without effect on the tables. */
  lemma OpenServe(cfg: Lifetimes, m: Machine, u: Turn)
    requires m.open && !u.shut && u.call.Gated()
    ensures
      var (m', answer) := Serve(cfg, m, u);
      if Accepts(cfg, m.tables, u) then (m'.tables, answer) == Attempt(cfg, m.tables, u.call, u.now, u.later)
      else answer.Rejected? && m'.tables == m.tables
  {
  }

  lemma ClosedServe(cfg: Lifetimes, m: Machine, u: Turn)
    requires !(m.open && !u.shut) && u.call.Gated()
    ensures Serve(cfg, m, u).1.Rejected? && Serve(cfg, m, u).0 == Machine(m.tables, false)
  {
  }

  lemma BothOpen(cfg: Lifetimes, m: Machine, m': Machine, u: Turn)
    requires Alike(m.tables, m'.tables, u.now) && u.now <= u.later
    requires m.open && m'.open && !u.shut && u.call.Gated()
    ensures Verdict(Serve(cfg, m, u).1) == Verdict(Serve(cfg, m', u).1) <==> Unseen(cfg, m, m', u)
    ensures Unseen(cfg, m, m', u) ==> Alike(Serve(cfg, m, u).0.tables, Serve(cfg, m', u).0.tables, u.later)
  {
    OpenServe(cfg, m, u);
    OpenServe(cfg, m', u);
    AlikeLater(m.tables, m'.tables, u.now, u.later);
    if u.call.Revoke? {
      RevocationVerdictIff(cfg, m.tables, m'.tables, u.call, u.now, u.later);
      if !Shows(m.tables, m'.tables, u.call) {
        HiddenStayAlike(cfg, m.tables, m'.tables, u);
      }
    } else {
      AttemptAlike(cfg, m.tables, m'.tables, u.call, u.now, u.later);
    }
  }

  lemma HiddenStayAlike(cfg: Lifetimes, a: Tables, b: Tables, u: Turn)
    requires Alike(a, b, u.now) && u.now <= u.later && u.call.Revoke? && !Splits(a, b, u.call, u.now)
    ensures Alike(Attempt(cfg, a, u.call, u.now, u.later).0, Attempt(cfg, b, u.call, u.now, u.later).0, u.later)
  {
    RevocationKeepsAlikeIff(cfg, a, b, u.call, u.now, u.later);
    AlikeLater(Attempt(cfg, a, u.call, u.now, u.later).0, Attempt(cfg, b, u.call, u.now, u.later).0, u.now, u.later);
  }

  lemma ServeUnseenIff(cfg: Lifetimes, m: Machine, m': Machine, u: Turn)
    requires Alike(m.tables, m'.tables, u.now) && u.now <= u.later && !u.call.CleanupPass?
    ensures Verdict(Serve(cfg, m, u).1) == Verdict(Serve(cfg, m', u).1) <==> Unseen(cfg, m, m', u)
    ensures Unseen(cfg, m, m', u) ==> Alike(Serve(cfg, m, u).0.tables, Serve(cfg, m', u).0.tables, u.later)
  {
    AlikeLater(m.tables, m'.tables, u.now, u.later);
    if u.call.Authenticate? {
      AuthenticateAlike(m.tables, m'.tables, u.call.token, u.now, u.later);
    } else if m.open && m'.open && !u.shut {
      BothOpen(cfg, m, m', u);
    } else {
      if m.open && !u.shut {
        OpenServe(cfg, m, u);
      } else {
        ClosedServe(cfg, m, u);
      }
      if m'.open && !u.shut {
        OpenServe(cfg, m', u);
      } else {
        ClosedServe(cfg, m', u);
      }
    }
  }

  /** A cleanup pass on one side only leaves the tables alike, recorded or not. */
  lemma PassAlike(cfg: Lifetimes, m: Machine, t: Tables, u: Turn, now: int)
    requires Alike(m.tables, t, now) && now <= u.now <= u.later && u.call.CleanupPass?
    ensures Alike(Serve(cfg, m, u).0.tables, t, u.later)
  {
    AlikeLater(m.tables, t, now, u.now);
    CleanedIsAlike(m.tables, u.now);
    AlikeSymmetric(m.tables, Cleaned(m.tables, u.now), u.now);
    AlikeTransitive(Cleaned(m.tables, u.now), m.tables, t, u.now);
    AlikeLater(Cleaned(m.tables, u.now), t, u.now, u.later);
    AlikeLater(m.tables, t, u.now, u.later);
  }

  lemma {:induction false} UnnoticedIff(cfg: Lifetimes, m: Machine, m': Machine, us: seq<Turn>, now: int)
    requires Timely(us, now) && Alike(m.tables, m'.tables, now)
    ensures Verdicts(cfg, m, us) == Verdicts(cfg, m', WithoutCleanup(us)) <==> Unnoticed(cfg, m, m', us)
    decreases us
  {
    if us != [] {
      var u, next := us[0], Serve(cfg, m, us[0]).0;
      if u.call.CleanupPass? {
        RemovedPass(cfg, m', us);
        PassAlike(cfg, m, m'.tables, u, now);
        UnnoticedIff(cfg, next, Shut(m', u.shut), us[1..], u.later);
      } else {
        KeptCall(cfg, m', us);
        AlikeLater(m.tables, m'.tables, now, u.now);
        ServeUnseenIff(cfg, m, m', u);
        if Unseen(cfg, m, m', u) {
          UnnoticedIff(cfg, next, Serve(cfg, m', u).0, us[1..], u.later);
        }
        FirstThenRest(Verdict(Serve(cfg, m, u).1), Verdicts(cfg, next, us[1..]),
                      Verdict(Serve(cfg, m', u).1), Verdicts(cfg, Serve(cfg, m', u).0, WithoutCleanup(us[1..])));
      }
    }
  }

  lemma FirstThenRest<T>(x: T, xs: seq<T>, y: T, ys: seq<T>)
    ensures [x] + xs == [y] + ys <==> x == y && xs == ys
  {
    assert ([x] + xs)[1..] == xs && ([y] + ys)[1..] == ys;
  }

  lemma AlikeReflexive(t: Tables, now: int)
    ensures Alike(t, t, now)
  {
    forall k ensures SameBootstrap(t, t, now, k) {}
    forall k ensures SameGrant(t, t, now, k) {}
    forall k ensures SameSession(t, t, now, k) {}
  }

  /**
   Exactly when cleanup cannot be noticed, for every run in order of time, whatever is recorded or
   not: cleanup passes change no verdict on any call if and only if no recorded revocation names a
   session that only one of the two runs still holds, and no call is accepted in one run while the
   gate is closed in the other.
   */
  lemma CleanupIsInvisibleIff(cfg: Lifetimes, m: Machine, us: seq<Turn>, now: int)
    requires Timely(us, now)
    ensures Verdicts(cfg, m, us) == Verdicts(cfg, m, WithoutCleanup(us)) <==> Unnoticed(cfg, m, m, us)
  {
    AlikeReflexive(m.tables, now);
    UnnoticedIff(cfg, m, m, us, now);
  }

  // Passes that are recorded

  ghost predicate PassesRecorded(us: seq<Turn>) {
    forall u | u in us && u.call.CleanupPass? :: u.persisted && u.audited
  }

  ghost predicate RevocationsRecorded(us: seq<Turn>) {
    forall u | u in us && RevokesSession(u.call) :: u.persisted && u.audited
  }

  ghost predicate AlikeMachines(m: Machine, m': Machine, now: int) {
    m.open == m'.open && Alike(m.tables, m'.tables, now)
  }

  /** A call that alike tables answer alike, or a revocation that is recorded and does not split them, leaves the machines alike. */
  lemma ServeAlike(cfg: Lifetimes, m: Machine, m': Machine, u: Turn)
    requires AlikeMachines(m, m', u.now) && u.now <= u.later && !u.call.CleanupPass?
    requires RevokesSession(u.call) ==> u.persisted && u.audited
    requires RevokesSession(u.call) && m.open && !u.shut ==> !Splits(m.tables, m'.tables, u.call, u.now)
    ensures AlikeMachines(Serve(cfg, m, u).0, Serve(cfg, m', u).0, u.later)
    ensures !RevokesSession(u.call) ==> Verdict(Serve(cfg, m, u).1) == Verdict(Serve(cfg, m', u).1)
  {
    AlikeLater(m.tables, m'.tables, u.now, u.later);
    if RevokesSession(u.call) {
      if m.open && !u.shut {
        HiddenStayAlike(cfg, m.tables, m'.tables, u);
      }
    } else {
      AttemptAlike(cfg, m.tables, m'.tables, u.call, u.now, u.later);
    }
  }

  /**
   Cleanup passes anywhere in a run whose revocations name only grants change no verdict of the calls
   around them: what is accepted, with which token, grant or agent, and what is rejected.
   */
  lemma CleanupIsInvisible(cfg: Lifetimes, m: Machine, us: seq<Turn>, now: int)
    requires Timely(us, now) && PassesRecorded(us) && forall u | u in us :: !RevokesSession(u.call)
    ensures Verdicts(cfg, m, us) == Verdicts(cfg, m, WithoutCleanup(us))
  {
    CleanupIsInvisibleIff(cfg, m, us, now);
    AlikeReflexive(m.tables, now);
    NoneNamedUnnoticed(cfg, m, m, us, now);
  }

  lemma {:induction false} NoneNamedUnnoticed(cfg: Lifetimes, m: Machine, m': Machine, us: seq<Turn>, now: int)
    requires Timely(us, now) && PassesRecorded(us) && forall u | u in us :: !RevokesSession(u.call)
    requires AlikeMachines(m, m', now)
    ensures Unnoticed(cfg, m, m', us)
    decreases us
  {
    if us != [] {
      var u, next := us[0], Serve(cfg, m, us[0]).0;
      assert u in us;
      if u.call.CleanupPass? {
        PassAlike(cfg, m, m'.tables, u, now);
        NoneNamedUnnoticed(cfg, next, Shut(m', u.shut), us[1..], u.later);
      } else {
        AlikeLater(m.tables, m'.tables, now, u.now);
        ServeAlike(cfg, m, m', u);
        NoneNamedUnnoticed(cfg, next, Serve(cfg, m', u).0, us[1..], u.later);
      }
    }
  }

  /** No revocation that finds the gate open splits the run `us` from `m` and the run without its passes from `m'`. */
  predicate NoneSplits(cfg: Lifetimes, m: Machine, m': Machine, us: seq<Turn>)
    decreases us
  {
    us != [] ==>
      var next := Serve(cfg, m, us[0]).0;
      if us[0].call.CleanupPass? then NoneSplits(cfg, next, Shut(m', us[0].shut), us[1..])
      else
        && !(m.open && !us[0].shut && Splits(m.tables, m'.tables, us[0].call, us[0].now))
        && NoneSplits(cfg, next, Serve(cfg, m', us[0]).0, us[1..])
  }

  /**
   With revocations of every kind: as long as none splits the two runs, pairing, minting,
   authentication and all other calls are accepted or rejected alike, and only revocations that name
   a session can tell.
   */
  lemma CleanupIsInvisibleToUse(cfg: Lifetimes, m: Machine, us: seq<Turn>, now: int)
    requires Timely(us, now) && PassesRecorded(us) && RevocationsRecorded(us) && NoneSplits(cfg, m, m, us)
    ensures VerdictsOnUse(cfg, m, us) == VerdictsOnUse(cfg, m, WithoutCleanup(us))
  {
    AlikeReflexive(m.tables, now);
    UnsplitUseAlike(cfg, m, m, us, now);
  }

  lemma {:induction false} UnsplitUseAlike(cfg: Lifetimes, m: Machine, m': Machine, us: seq<Turn>, now: int)
    requires Timely(us, now) && PassesRecorded(us) && RevocationsRecorded(us) && NoneSplits(cfg, m, m', us)
    requires AlikeMachines(m, m', now)
    ensures VerdictsOnUse(cfg, m, us) == VerdictsOnUse(cfg, m', WithoutCleanup(us))
    decreases us
  {
    if us != [] {
      var u, next := us[0], Serve(cfg, m, us[0]).0;
      assert u in us;
      if u.call.CleanupPass? {
        RemovedPass(cfg, m', us);
        PassAlike(cfg, m, m'.tables, u, now);
        UnsplitUseAlike(cfg, next, Shut(m', u.shut), us[1..], u.later);
      } else {
        KeptCall(cfg, m', us);
        AlikeLater(m.tables, m'.tables, now, u.now);
        ServeAlike(cfg, m, m', u);
        UnsplitUseAlike(cfg, next, Serve(cfg, m', u).0, us[1..], u.later);
      }
    }
  }

  // Passes that are not recorded, and sessions that are gone

  /** Every call that looks at the gate is rejected. */
  predicate GatedRejected(cfg: Lifetimes, m: Machine, us: seq<Turn>)
    decreases us
  {
    us != [] ==>
      var (m', answer) := Serve(cfg, m, us[0]);
      (us[0].call.Gated() ==> answer.Rejected?) && GatedRejected(cfg, m', us[1..])
  }

  lemma GatedRejectedShut(cfg: Lifetimes, m: Machine, us: seq<Turn>, shut: bool)
    ensures us != [] ==> (GatedRejected(cfg, m, ShutFirst(us, shut)) <==> GatedRejected(cfg, Shut(m, shut), us))
  {
    if us != [] {
      ServeShut(cfg, m, us[0], shut);
    }
  }

  /** With the gate closed in the run with passes, the other run may accept nothing that looks at the gate. */
  lemma {:induction false} ClosedUnnoticedIff(cfg: Lifetimes, m: Machine, m': Machine, us: seq<Turn>)
    requires !m.open
    ensures Unnoticed(cfg, m, m', us) <==> GatedRejected(cfg, m', WithoutCleanup(us))
    decreases us
  {
    if us != [] {
      var u, next := us[0], Serve(cfg, m, us[0]).0;
      if u.call.CleanupPass? {
        WithoutCleanupShut(us[1..], u.shut);
        GatedRejectedShut(cfg, m', WithoutCleanup(us[1..]), u.shut);
        ClosedUnnoticedIff(cfg, next, Shut(m', u.shut), us[1..]);
      } else {
        KeptCall(cfg, m', us);
        assert ([u] + WithoutCleanup(us[1..]))[1..] == WithoutCleanup(us[1..]);
        ClosedUnnoticedIff(cfg, next, Serve(cfg, m', u).0, us[1..]);
      }
    }
  }

  /**
   A pass that has something to clean and cannot be recorded restores the tables and closes the gate:
   the calls behind it get the verdicts of the run without passes exactly when that run rejects all
   of them that look at the gate.
   */
  lemma FailedPassIsInvisibleIff(cfg: Lifetimes, m: Machine, pass: Turn, us: seq<Turn>)
    requires m.open && pass.call.CleanupPass? && !pass.shut && Cleaned(m.tables, pass.now) != m.tables
    requires !(pass.persisted && pass.audited)
    requires Timely([pass] + us, pass.now)
    ensures
      Verdicts(cfg, m, [pass] + us) == Verdicts(cfg, m, WithoutCleanup(us))
      <==> GatedRejected(cfg, m, WithoutCleanup(us))
  {
    assert ([pass] + us)[1..] == us;
    assert Serve(cfg, m, pass).0 == Machine(m.tables, false);
    AlikeReflexive(m.tables, pass.later);
    UnnoticedIff(cfg, Machine(m.tables, false), m, us, pass.later);
    ClosedUnnoticedIff(cfg, Machine(m.tables, false), m, us);
  }

  /**
   A recorded pass, from every open machine with a dead session still in the table: it makes revoking
   that session fail, which without the pass succeeds.
   */
  lemma RemovedSessionShows(cfg: Lifetimes, m: Machine, pass: Turn, revoke: Turn)
    requires m.open && Timely([pass, revoke], pass.now)
    requires pass.call.CleanupPass? && pass.persisted && pass.audited && !pass.shut
    requires revoke.call.Revoke? && revoke.persisted && revoke.audited && !revoke.shut
    requires Named(revoke.call.grantID).None? && Named(revoke.call.sessionID).Some?
    requires revoke.call.sessionID in m.tables.sessions && !m.tables.sessions[revoke.call.sessionID].Live(pass.now)
    ensures Verdicts(cfg, m, [pass, revoke]) == [None]
    ensures Verdicts(cfg, m, WithoutCleanup([pass, revoke])) == [Some(RevocationDone)]
  {
    var after := Serve(cfg, m, pass).0;
    assert after == Machine(Cleaned(m.tables, pass.now), true);
    assert [pass, revoke][1..] == [revoke] && [revoke][1..] == [];
    assert Verdicts(cfg, m, [pass, revoke]) == Verdicts(cfg, after, [revoke]);
    assert Verdicts(cfg, after, [revoke]) == [Verdict(Serve(cfg, after, revoke).1)];
    RemovedPass(cfg, m, [pass, revoke]);
    KeptCall(cfg, Shut(m, false), [revoke]);
    assert WithoutCleanup([]) == [];
  }
}
