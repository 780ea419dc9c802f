/**
 The clock, the audit sink and the durability gate that every component of the broker daemon
 shares (`cmd/promptlockd/durability_gate.go`).
 */
module Durability {

  datatype EventKind =
    | RequestCreated
    | RequestApproved
    | RequestDenied
    | RequestCancelledByAgent
    | RequestReusedActiveLease
    | RequestThrottledPendingCap
    | RequestThrottledCooldown
    | EnvPathConfirmed
    | EnvPathRejected
    | SecretAccessStarted
    | SecretAccess
    | SecretBackendError
    | PlaintextSecretAccessBlocked
    | AuthBootstrapCreated
    | AuthPairDenied
    | AuthPairCompleted
    | AuthSessionMinted
    | AuthRevoked
    | AuthCleanup
    | DurabilityPersistFailed
    | DurabilityGateClosed

  datatype AuditEvent = AuditEvent(
    kind: EventKind,
    timestamp: int,
    agentID: string,
    taskID: string,
    requestID: string,
    leaseToken: string,
    secret: string)
  {
    /** The four events that say how the set of requests and leases changed. */
    predicate ChangesRequests() {
      kind.RequestCreated? || kind.RequestApproved? || kind.RequestDenied? || kind.RequestCancelledByAgent?
    }

    predicate TellsOfEnvPath() {
      kind.EnvPathConfirmed? || kind.EnvPathRejected?
    }

    predicate TellsOfAccess() {
      kind.SecretAccessStarted? || kind.SecretAccess?
    }
  }

  function SystemEvent(kind: EventKind, timestamp: int): AuditEvent {
    AuditEvent(kind, timestamp, "", "", "", "", "")
  }

  /** `log` grew to `log'` without a word about requests or leases changing. */
  ghost predicate Quietly(log: seq<AuditEvent>, log': seq<AuditEvent>) {
    && log <= log'
    && forall i | |log| <= i < |log'| :: !log'[i].ChangesRequests()
  }

  /** Nor was there a word about an access to a secret. */
  ghost predicate Silently(log: seq<AuditEvent>, log': seq<AuditEvent>) {
    Quietly(log, log') && forall i | |log| <= i < |log'| :: !log'[i].TellsOfAccess()
  }

  class Clock {
    var time: int

    method Now() returns (t: int)
      modifies this
      ensures t == time && old(time) <= time
    {
      var elapsed: nat :| true;
      time := time + elapsed;
      t := time;
    }
  }

  class AuditSink {
    /** Whether a write that fails is sure to have appended nothing. */
    const clean: bool
    var log: seq<AuditEvent>

    constructor (clean: bool)
      ensures this.clean == clean && log == []
    {
      this.clean := clean;
      log := [];
    }

    /** A write appends the event, or fails; unless the sink is clean, it may have appended it all the same. */
    method Write(event: AuditEvent) returns (ok: bool)
      modifies this`log
      ensures ok ==> log == old(log) + [event]
      ensures !ok ==> log == old(log) || (!clean && log == old(log) + [event])
    {
      ok := *;
      var appended: bool := *;
      if ok || (appended && !clean) {
        log := log + [event];
      }
    }
  }

  datatype Component = RequestLeaseState | AuthStoreState | Audit

  class DurabilityGate {
    var closed: bool
    var reason: Component
    const sink: AuditSink
    const clock: Clock

    constructor (sink: AuditSink, clock: Clock)
      ensures !closed && this.sink == sink && this.clock == clock
    {
      closed := false;
      reason := Audit;
      this.sink := sink;
      this.clock := clock;
    }

    /** Closes the gate for good; the reason recorded is that of the first failure. */
    method CloseDurabilityGate(component: Component)
      modifies this, sink, clock
      ensures closed
      ensures reason == if old(closed) then old(reason) else component
      ensures |old(sink.log)| <= |sink.log| <= |old(sink.log)| + 2 && old(sink.log) <= sink.log
      ensures forall i | |old(sink.log)| <= i < |sink.log| ::
        var e := sink.log[i];
        || e == SystemEvent(DurabilityPersistFailed, e.timestamp)
        || (!old(closed) && e == SystemEvent(DurabilityGateClosed, e.timestamp))
      ensures component.Audit? ==> sink.log == old(sink.log)
      ensures old(clock.time) <= clock.time
    {
      var firstClose := !closed;
      if firstClose {
        closed := true;
        reason := component;
      }
      if !component.Audit? {
        var now := clock.Now();
        var _ := sink.Write(SystemEvent(DurabilityPersistFailed, now));
        if firstClose {
          now := clock.Now();
          var _ := sink.Write(SystemEvent(DurabilityGateClosed, now));
        }
      }
    }

    /** A critical event: failing to record it closes the gate. */
    method AuditCritical(event: AuditEvent) returns (ok: bool)
      modifies this, sink, clock
      ensures ok ==> sink.log == old(sink.log) + [event] && closed == old(closed) && reason == old(reason)
      ensures !ok ==> closed && (sink.log == old(sink.log) || (!sink.clean && sink.log == old(sink.log) + [event]))
      ensures old(clock.time) <= clock.time
    {
      ok := sink.Write(event);
      if !ok {
        CloseDurabilityGate(Audit);
      }
    }
  }
}
