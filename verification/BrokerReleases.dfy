/** How late a released secret may be: the expiry of a lease is looked at before the access is logged. */
module BrokerReleases {
  import opened Prelude
  import opened Text
  import opened Domain
  import opened RequestPolicy
  import opened Durability
  import opened Broker
  import opened BrokerRuns

  /** Everything that the state decides about a release stands in its favour. */
  predicate CanRelease(cfg: Config, v: View, c: Call)
    requires c.Access? || c.Resolve?
  {
    && c.leaseToken in v.mem.leases
    && var l := v.mem.leases[c.leaseToken];
    && MayUse(l, c.caller, c.cmdFingerprint, c.wdFingerprint)
    && !l.IsExpired(v.clock)
    && if c.Access? then cfg.allowPlaintext && l.Allows(c.secret) && c.secret in c.backend
       else
         && Names(c.names) != {} && (forall n | n in Names(c.names) :: l.Allows(n))
         && l.requestID in v.mem.requests
         && var r := v.mem.requests[l.requestID];
         && r.status.Approved? && (c.caller != "" ==> r.agentID == c.caller)
         && if TrimSpace(r.envPath) == "" then forall n | n in Names(c.names) :: n in c.backend
            else c.approvedNow != "" && c.envFile.Some? && c.envFile.value.1 == c.approvedNow
  }

  /** Every access that the call completed under the lease was complete before the lease expired. */
  predicate CompletesInTime(pre: View, post: View, l: Lease) {
    forall i | |pre.log| <= i < |post.log| ::
      post.log[i].kind.SecretAccess? && post.log[i].leaseToken == l.token ==> post.log[i].timestamp < l.expiresAt
  }

  /** Completion of the last access is logged only at `late`, everything before it at `at`. */
  function Completion(l: Lease, names: seq<string>, k: nat, at: int, late: int): AuditEvent
    requires k < |names|
  {
    SecretEvent(SecretAccess, if k == |names| - 1 then late else at, l, names[k])
  }

  /** Secrets of the store are taken one after the other. */
  function OneByOne(l: Lease, names: seq<string>, at: int, late: int): seq<AuditEvent> {
    seq(2 * |names|, i requires 0 <= i < 2 * |names| =>
      if i % 2 == 0 then SecretEvent(SecretAccessStarted, at, l, names[i / 2]) else Completion(l, names, i / 2, at, late))
  }

  /** Those of an env file together: all are started before any is completed. */
  function AllAtOnce(l: Lease, names: seq<string>, at: int, late: int): seq<AuditEvent> {
    seq(2 * |names|, i requires 0 <= i < 2 * |names| =>
      if i < |names| then SecretEvent(SecretAccessStarted, at, l, names[i]) else Completion(l, names, i - |names|, at, late))
  }

  /** `events` log an access to every name, and the last of them completes at `late`. */
  ghost predicate LogsAll(events: seq<AuditEvent>, l: Lease, names: seq<string>, at: int, late: int) {
    && events != [] && events[|events| - 1].kind.SecretAccess?
    && events[|events| - 1].leaseToken == l.token && events[|events| - 1].timestamp == late
    && (forall i | 0 <= i < |events| :: !events[i].ChangesRequests() && !events[i].TellsOfEnvPath())
    && (forall n | n in names :: AccessLogged([], events, l, n, at))
    && AllEarned([], events, l, Elements(names), at) && EachOnce([], events)
  }

  /** Why it may be given out: the names are different, and the lease allows them while it lasts. */
  predicate Grantable(l: Lease, names: seq<string>, at: int) {
    names != [] && NoRepeats(names) && !l.IsExpired(at) && forall n | n in names :: l.Allows(n)
  }

  lemma OneByOneEarned(l: Lease, names: seq<string>, at: int, late: int)
    requires Grantable(l, names, at) && at <= late
    ensures var events := OneByOne(l, names, at, late);
            && (forall i | 0 <= i < |events| :: !events[i].ChangesRequests() && !events[i].TellsOfEnvPath())
            && AllEarned([], events, l, Elements(names), at) && EachOnce([], events)
  {
    var events := OneByOne(l, names, at, late);
    forall i | 0 <= i < |events|
      ensures !events[i].ChangesRequests() && !events[i].TellsOfEnvPath() && Earned(l, Elements(names), at, events[i])
    {
      assert names[i / 2] in Elements(names) && events[i].secret == names[i / 2];
    }
    forall i, j | 0 <= i < j < |events| && events[i].kind == events[j].kind ensures events[i].secret != events[j].secret {
      assert events[i].secret == names[i / 2] && events[j].secret == names[j / 2];
    }
  }

  lemma OneByOneLogsAll(l: Lease, names: seq<string>, at: int, late: int)
    requires Grantable(l, names, at) && at <= late
    ensures LogsAll(OneByOne(l, names, at, late), l, names, at, late)
  {
    var events := OneByOne(l, names, at, late);
    assert events[2 * |names| - 1] == Completion(l, names, |names| - 1, at, late);
    OneByOneEarned(l, names, at, late);
    forall n | n in names ensures AccessLogged([], events, l, n, at) {
      var k :| 0 <= k < |names| && names[k] == n;
      var i, j := 2 * k, 2 * k + 1;
      assert events[i] == SecretEvent(SecretAccessStarted, at, l, n);
      assert events[j] == Completion(l, names, k, at, late);
    }
  }

  lemma AllAtOnceEarned(l: Lease, names: seq<string>, at: int, late: int)
    requires Grantable(l, names, at) && at <= late
    ensures var events := AllAtOnce(l, names, at, late);
            && (forall i | 0 <= i < |events| :: !events[i].ChangesRequests() && !events[i].TellsOfEnvPath())
            && AllEarned([], events, l, Elements(names), at) && EachOnce([], events)
  {
    var events := AllAtOnce(l, names, at, late);
    forall i | 0 <= i < |events|
      ensures !events[i].ChangesRequests() && !events[i].TellsOfEnvPath() && Earned(l, Elements(names), at, events[i])
    {
      if i >= |names| {
        assert events[i] == Completion(l, names, i - |names|, at, late);
        assert names[i - |names|] in Elements(names);
      } else {
        assert names[i] in Elements(names);
      }
    }
    forall i, j | 0 <= i < j < |events| && events[i].kind == events[j].kind ensures events[i].secret != events[j].secret {
      if i >= |names| {
        assert events[i] == Completion(l, names, i - |names|, at, late);
      }
      if j >= |names| {
        assert events[j] == Completion(l, names, j - |names|, at, late);
      }
    }
  }

  lemma AllAtOnceLogsAll(l: Lease, names: seq<string>, at: int, late: int)
    requires Grantable(l, names, at) && at <= late
    ensures LogsAll(AllAtOnce(l, names, at, late), l, names, at, late)
  {
    var events := AllAtOnce(l, names, at, late);
    assert events[2 * |names| - 1] == Completion(l, names, |names| - 1, at, late);
    AllAtOnceEarned(l, names, at, late);
    forall n | n in names ensures AccessLogged([], events, l, n, at) {
      var k :| 0 <= k < |names| && names[k] == n;
      var j := |names| + k;
      assert events[k] == SecretEvent(SecretAccessStarted, at, l, n);
      assert events[j] == Completion(l, names, k, at, late);
    }
  }

  lemma LoggedBehind(log: seq<AuditEvent>, events: seq<AuditEvent>, l: Lease, n: string, at: int)
    requires AccessLogged([], events, l, n, at)
    ensures AccessLogged(log, log + events, l, n, at)
  {
    var i, j, t, done :| 0 <= i < j < |events| && at <= t <= done
      && events[i] == SecretEvent(SecretAccessStarted, t, l, n) && events[j] == SecretEvent(SecretAccess, done, l, n);
    var i', j' := |log| + i, |log| + j;
    assert (log + events)[i'] == events[i] && (log + events)[j'] == events[j];
  }

  /** After the call: nothing has changed but that `events` are logged and the clock shows `late`. */
  ghost function Logged(pre: View, events: seq<AuditEvent>, late: int): View {
    pre.(log := pre.log + events, clock := late)
  }

  lemma LateRelease(pre: View, l: Lease, names: seq<string>, events: seq<AuditEvent>)
    requires !l.IsExpired(pre.clock) && LogsAll(events, l, names, pre.clock, l.expiresAt)
    requires forall n | n in names :: l.Allows(n)
    ensures IdleOpen(pre, Logged(pre, events, l.expiresAt))
    ensures forall n | n in names :: ReleasesSecret(pre, Logged(pre, events, l.expiresAt), l, n)
    ensures !CompletesInTime(pre, Logged(pre, events, l.expiresAt), l)
    ensures AllEarned(pre.log, pre.log + events, l, Elements(names), pre.clock) && EachOnce(pre.log, pre.log + events)
    ensures forall i | |pre.log| <= i < |pre.log + events| :: !(pre.log + events)[i].TellsOfEnvPath()
  {
    var post := Logged(pre, events, l.expiresAt);
    forall n | n in names ensures ReleasesSecret(pre, post, l, n) {
      LoggedBehind(pre.log, events, l, n, pre.clock);
    }
    assert post.log[|post.log| - 1] == events[|events| - 1];
  }

  lemma AccessMayBeLate(cfg: Config, pre: View, c: Call) returns (out: Outcome, post: View)
    requires c.Access? && CanRelease(cfg, pre, c) && pre.gateOpen && Admissible(pre, c)
    ensures Next(cfg, pre, Handled(c, out), post) && out.Released?
    ensures !CompletesInTime(pre, post, pre.mem.leases[c.leaseToken])
  {
    var l := pre.mem.leases[c.leaseToken];
    var events := OneByOne(l, [c.secret], pre.clock, l.expiresAt);
    OneByOneLogsAll(l, [c.secret], pre.clock, l.expiresAt);
    LateRelease(pre, l, [c.secret], events);
    post := Logged(pre, events, l.expiresAt);
    out := Released(map[c.secret := c.backend[c.secret]]);
    assert c.secret in [c.secret] && Elements([c.secret]) == {c.secret};
  }

  /** The values that a resolving call with every guard in its favour hands out. */
  function Resolved(v: View, c: Call): map<string, string>
    requires c.Resolve? && c.leaseToken in v.mem.leases && v.mem.leases[c.leaseToken].requestID in v.mem.requests
  {
    if TrimSpace(v.mem.requests[v.mem.leases[c.leaseToken].requestID].envPath) == "" then
      map n | n in Names(c.names) && n in c.backend :: c.backend[n]
    else if c.envFile.Some? then c.envFile.value.0
    else map[]
  }

  lemma ResolvedIsReleased(cfg: Config, pre: View, c: Call, post: View)
    requires c.Resolve? && CanRelease(cfg, pre, c) && Admissible(pre, c)
    requires IdleOpen(pre, post) && AccessesEarned(pre, c, post)
    requires forall i | |pre.log| <= i < |post.log| :: !post.log[i].TellsOfEnvPath()
    requires forall n | n in Names(c.names) :: ReleasesSecret(pre, post, pre.mem.leases[c.leaseToken], n)
    ensures ResolveStep(cfg, pre, c, Released(Resolved(pre, c)), post)
  {
    var values := Resolved(pre, c);
    assert values.Keys == Names(c.names);
  }

  lemma LateEvents(l: Lease, names: seq<string>, at: int, fromStore: bool) returns (events: seq<AuditEvent>)
    requires Grantable(l, names, at)
    ensures LogsAll(events, l, names, at, l.expiresAt)
  {
    if fromStore {
      events := OneByOne(l, names, at, l.expiresAt);
      OneByOneLogsAll(l, names, at, l.expiresAt);
    } else {
      events := AllAtOnce(l, names, at, l.expiresAt);
      AllAtOnceLogsAll(l, names, at, l.expiresAt);
    }
  }

  lemma ResolveMayBeLate(cfg: Config, pre: View, c: Call) returns (out: Outcome, post: View)
    requires c.Resolve? && CanRelease(cfg, pre, c) && pre.gateOpen && Admissible(pre, c)
    ensures Next(cfg, pre, Handled(c, out), post) && out.Released?
    ensures !CompletesInTime(pre, post, pre.mem.leases[c.leaseToken])
  {
    post := AllMayBeLate(pre, pre.mem.leases[c.leaseToken], c.names,
                         TrimSpace(pre.mem.requests[pre.mem.leases[c.leaseToken].requestID].envPath) == "");
    out := Released(Resolved(pre, c));
    ResolvedIsReleased(cfg, pre, c, post);
  }

  lemma AllMayBeLate(pre: View, l: Lease, secrets: seq<string>, fromStore: bool) returns (post: View)
    requires !l.IsExpired(pre.clock) && Names(secrets) != {} && forall n | n in Names(secrets) :: l.Allows(n)
    ensures IdleOpen(pre, post) && !CompletesInTime(pre, post, l)
    ensures AllEarned(pre.log, post.log, l, Names(secrets), pre.clock) && EachOnce(pre.log, post.log)
    ensures forall i | |pre.log| <= i < |post.log| :: !post.log[i].TellsOfEnvPath()
    ensures forall n | n in Names(secrets) :: ReleasesSecret(pre, post, l, n)
  {
    NamesListed(secrets);
    var events := LateEvents(l, Distinct(secrets), pre.clock, fromStore);
    post := Logged(pre, events, l.expiresAt);
    LateRelease(pre, l, Distinct(secrets), events);
  }

  lemma NamesListed(secrets: seq<string>)
    ensures forall n :: n in Distinct(secrets) <==> n in Names(secrets)
    ensures Names(secrets) != {} ==> Distinct(secrets) != []
    ensures NoRepeats(Distinct(secrets)) && Elements(Distinct(secrets)) == Names(secrets)
  {
    DistinctNames(secrets);
    ElementsEmpty(Distinct(secrets));
    assert forall n :: n in Distinct(secrets) <==> n in Elements(Distinct(secrets));
  }

  lemma ReleaseNeedsGuards(cfg: Config, pre: View, c: Call, out: Outcome, post: View)
    requires c.Access? || c.Resolve?
    requires Next(cfg, pre, Handled(c, out), post) && out.Released?
    ensures CanRelease(cfg, pre, c)
  {
    if c.Access? {
    } else {
      assert forall n | n in Names(c.names) :: n in out.values;
    }
  }

  /** From every state in which a secret can be had, its access may be completed after the lease has expired. */
  lemma ReleaseMayOutliveLease(cfg: Config, pre: View, c: Call)
    requires c.Access? || c.Resolve?
    requires pre.gateOpen && Admissible(pre, c) && CanRelease(cfg, pre, c)
    ensures exists out, post ::
      && Next(cfg, pre, Handled(c, out), post) && out.Released?
      && !CompletesInTime(pre, post, pre.mem.leases[c.leaseToken])
  {
    var out, post;
    if c.Access? {
      out, post := AccessMayBeLate(cfg, pre, c);
    } else {
      out, post := ResolveMayBeLate(cfg, pre, c);
    }
  }

  /**
   What is held against the clock is the expiry check, not the hand-over. So no call that can release a
   secret at all is safe from completing the access after the lease has expired: all its releases are
   in time exactly when it cannot release anything.
   */
  lemma ReleasesInTimeIff(cfg: Config, pre: View, c: Call)
    requires c.Access? || c.Resolve?
    requires pre.gateOpen && Admissible(pre, c)
    ensures (forall out, post | Next(cfg, pre, Handled(c, out), post) && out.Released? ::
               c.leaseToken in pre.mem.leases && CompletesInTime(pre, post, pre.mem.leases[c.leaseToken]))
       <==> !CanRelease(cfg, pre, c)
  {
    if CanRelease(cfg, pre, c) {
      ReleaseMayOutliveLease(cfg, pre, c);
    } else {
      forall out, post | Next(cfg, pre, Handled(c, out), post) ensures !out.Released? {
        if out.Released? {
          ReleaseNeedsGuards(cfg, pre, c, out, post);
        }
      }
    }
  }

  /**
   The file that secrets are read from is compared with what the approved path leads to now. Whatever is
   released comes from the file that was approved, exactly when the approved path still leads to itself.
   */
  lemma ReadsApprovedFileIff(cfg: Config, pre: View, c: Call, r: LeaseRequest)
    requires c.Resolve? && pre.gateOpen && Admissible(pre, c) && CanRelease(cfg, pre, c)
    requires r == pre.mem.requests[pre.mem.leases[c.leaseToken].requestID] && TrimSpace(r.envPath) != ""
    ensures (forall out, post | Next(cfg, pre, Handled(c, out), post) && out.Released? ::
               c.envFile == Some((out.values, r.envPathCanonical)))
       <==> c.approvedNow == r.envPathCanonical
  {
    var out, post := ResolveMayBeLate(cfg, pre, c);
    assert Next(cfg, pre, Handled(c, out), post) && c.envFile.value.1 == c.approvedNow;
  }
}
