/**
 The fixed-window limiter on failed authentication: `allow` and `recordFailure` of
 `cmd/promptlockd/auth_ratelimit.go`, and what they guarantee over whole runs.
 */
module RateLimiter {
  import opened Prelude
  import opened Time

  /** `count` failures in the window that ends at `resetAt`. */
  datatype Bucket = Bucket(count: nat, resetAt: int)

  datatype Limits = Limits(window: int, max: int) {
    ghost predicate Valid() { window > 0 && max > 0 }
  }

  type Buckets = map<string, Bucket>

  function Lookup(buckets: Buckets, key: string): Option<Bucket> {
    if key in buckets then Some(buckets[key]) else None
  }

  /** The bucket that counts at `now`: a new one when there is none or its window has ended. */
  function Current(l: Limits, b: Option<Bucket>, now: int): Bucket {
    if b.None? || now >= b.value.resetAt then Bucket(0, now + l.window) else b.value
  }

  function Allowed(l: Limits, b: Option<Bucket>, now: int): bool {
    Current(l, b, now).count < l.max
  }

  function Recorded(l: Limits, b: Option<Bucket>, now: int): Bucket {
    Bucket(Current(l, b, now).count + 1, Current(l, b, now).resetAt)
  }

  class AuthRateLimiter {
    const limits: Limits
    var enabled: bool
    var buckets: Buckets

    constructor (windowSeconds: int, maxAttempts: int)
      ensures limits.Valid() && enabled && buckets == map[]
      ensures windowSeconds > 0 ==> limits.window == windowSeconds * SECOND
      ensures maxAttempts > 0 ==> limits.max == maxAttempts
      ensures windowSeconds <= 0 ==> limits.window == 60 * SECOND
      ensures maxAttempts <= 0 ==> limits.max == 20
    {
      limits := Limits(
        (if windowSeconds <= 0 then 60 else windowSeconds) * SECOND,
        if maxAttempts <= 0 then 20 else maxAttempts);
      enabled := true;
      buckets := map[];
    }

    method Allow(key: string, now: int) returns (allowed: bool)
      modifies this`buckets
      ensures !enabled ==> allowed && buckets == old(buckets)
      ensures enabled ==> allowed == Allowed(limits, Lookup(old(buckets), key), now)
      ensures enabled ==> buckets == old(buckets)[key := Current(limits, Lookup(old(buckets), key), now)]
    {
      if !enabled {
        return true;
      }
      var b: Bucket;
      if key !in buckets || now >= buckets[key].resetAt {
        b := Bucket(0, now + limits.window);
      } else {
        b := buckets[key];
      }
      if b.count >= limits.max {
        buckets := buckets[key := b];
        return false;
      }
      buckets := buckets[key := b];
      return true;
    }

    method RecordFailure(key: string, now: int) returns (tripped: bool)
      modifies this`buckets
      ensures !enabled ==> !tripped && buckets == old(buckets)
      ensures enabled ==> tripped == (Recorded(limits, Lookup(old(buckets), key), now).count >= limits.max)
      ensures enabled ==> buckets == old(buckets)[key := Recorded(limits, Lookup(old(buckets), key), now)]
    {
      if !enabled {
        return false;
      }
      var b: Bucket;
      if key !in buckets || now >= buckets[key].resetAt {
        b := Bucket(0, now + limits.window);
      } else {
        b := buckets[key];
      }
      b := b.(count := b.count + 1);
      buckets := buckets[key := b];
      return b.count >= limits.max;
    }
  }

  /** A failure trips the limiter exactly when the next attempt would be refused. */
  lemma TrippedIffRefused(l: Limits, b: Option<Bucket>, now: int)
    requires l.Valid()
    ensures Recorded(l, b, now).count >= l.max <==> !Allowed(l, Some(Recorded(l, b, now)), now)
  {
  }

  // ---------------------------------------------------------------------------------------------
  // Runs
  // ---------------------------------------------------------------------------------------------

  /** One attempt: `Allow` at `at` and, when it was let through and failed, `RecordFailure` later. */
  datatype Attempt = Attempt(key: string, at: int, failure: Option<int>) {
    function End(): int { if failure.Some? then failure.value else at }
  }

  function AfterAttempt(l: Limits, buckets: Buckets, a: Attempt): Buckets {
    var gated := buckets[a.key := Current(l, Lookup(buckets, a.key), a.at)];
    match a.failure
    case None => gated
    case Some(t) => gated[a.key := Recorded(l, Lookup(gated, a.key), t)]
  }

  function After(l: Limits, attempts: seq<Attempt>): Buckets {
    if attempts == [] then map[]
    else AfterAttempt(l, After(l, attempts[..|attempts| - 1]), attempts[|attempts| - 1])
  }

  /** Attempts one after the other, each failing only if it was let through. */
  ghost predicate IsRun(l: Limits, attempts: seq<Attempt>) {
    attempts != [] ==>
      var front, last := attempts[..|attempts| - 1], attempts[|attempts| - 1];
      && IsRun(l, front)
      && (front != [] ==> front[|front| - 1].End() <= last.at)
      && last.at <= last.End()
      && (last.failure.Some? ==> Allowed(l, Lookup(After(l, front), last.key), last.at))
  }

  /** When the failures of a key happened. */
  function Failures(attempts: seq<Attempt>, key: string): seq<int> {
    if attempts == [] then []
    else
      var last := attempts[|attempts| - 1];
      Failures(attempts[..|attempts| - 1], key)
      + if last.key == key && last.failure.Some? then [last.failure.value] else []
  }

  function Within(times: seq<int>, from: int, to: int): nat {
    if times == [] then 0
    else
      var last := times[|times| - 1];
      Within(times[..|times| - 1], from, to) + if from <= last <= to then 1 else 0
  }

  // ---------------------------------------------------------------------------------------------
  // What a bucket knows
  // ---------------------------------------------------------------------------------------------

  /** The number of windows of length `w` needed to cover a stretch of length `d`. */
  function Past(w: int, d: int): nat
    requires w > 0
    decreases d
  {
    if d <= 0 then 0 else 1 + Past(w, d - w)
  }

  lemma {:induction false} PastMonotone(w: int, d: int, later: int)
    requires w > 0 && d <= later
    ensures Past(w, d) <= Past(w, later)
    decreases d
  {
    if d > 0 {
      PastMonotone(w, d - w, later - w);
    }
  }

  lemma PastWindow(w: int, d: int, later: int)
    requires w > 0 && later >= d + w && later > 0
    ensures Past(w, later) >= 1 + Past(w, d)
  {
  }

  lemma {:induction false} PastCovers(w: int, d: int, n: nat)
    requires w > 0 && d <= n * w
    ensures Past(w, d) <= n
    decreases n
  {
    if d > 0 {
      assert n > 0;
      assert (n - 1) * w == n * w - w;
      PastCovers(w, d - w, n - 1);
    }
  }

  /** In terms of whole windows: the quotient, rounded up. */
  lemma PastIsAtMostOneOver(w: int, d: int)
    requires w > 0 && d >= 0
    ensures Past(w, d) <= d / w + 1
  {
    var q := d / w;
    assert d == w * q + d % w;
    assert (q + 1) * w == w * q + w;
    assert q >= 0;
    PastCovers(w, d, q + 1);
  }

  ghost predicate Knows(l: Limits, b: Option<Bucket>, failures: seq<int>, now: int)
    requires l.Valid()
  {
    match b
    case None => failures == []
    case Some(b) =>
      var start := b.resetAt - l.window;
      && start <= now
      && b.count <= l.max
      && b.count == Within(failures, start, now)
      && (forall t | t in failures :: t <= now && t < b.resetAt)
  }

  /** At most `max` failures for each window since `from`. */
  ghost predicate Bounded(l: Limits, b: Option<Bucket>, failures: seq<int>, now: int, from: int)
    requires l.Valid()
  {
    match b
    case None => failures == []
    case Some(b) => Within(failures, from, now) <= l.max * Past(l.window, b.resetAt - l.window - from) + b.count
  }

  lemma {:induction false} WithinNarrower(times: seq<int>, from: int, to: int, from': int, to': int)
    requires forall t | t in times && from' <= t <= to' :: from <= t <= to
    ensures Within(times, from', to') <= Within(times, from, to)
  {
    if times != [] {
      var front, last := times[..|times| - 1], times[|times| - 1];
      assert times == front + [last];
      assert last in times && forall t | t in front :: t in times;
      WithinNarrower(front, from, to, from', to');
    }
  }

  lemma WithinSame(times: seq<int>, from: int, to: int, to': int)
    requires forall t | t in times :: t <= to && t <= to'
    ensures Within(times, from, to) == Within(times, from, to')
  {
    WithinNarrower(times, from, to, from, to');
    WithinNarrower(times, from, to', from, to);
  }

  lemma {:induction false} WithinNone(times: seq<int>, from: int, to: int)
    requires forall t | t in times :: t < from
    ensures Within(times, from, to) == 0
  {
    if times != [] {
      var front, last := times[..|times| - 1], times[|times| - 1];
      assert times == front + [last];
      assert last in times && forall t | t in front :: t in times;
      WithinNone(front, from, to);
    }
  }

  lemma LaterKnows(l: Limits, b: Option<Bucket>, failures: seq<int>, before: int, now: int, from: int)
    requires l.Valid() && before <= now
    requires Knows(l, b, failures, before) && Bounded(l, b, failures, before, from)
    ensures Knows(l, b, failures, now) && Bounded(l, b, failures, now, from)
  {
    if b.Some? {
      WithinSame(failures, b.value.resetAt - l.window, before, now);
      WithinSame(failures, from, before, now);
    }
  }

  lemma TimesMonotone(k: nat, a: int, b: int)
    requires a <= b
    ensures k * a <= k * b
  {
  }

  lemma TimesStep(k: int, a: int)
    ensures k * (a + 1) == k * a + k
  {
  }

  /** A bucket whose window has ended can be replaced by an empty one. */
  lemma RenewedKnows(l: Limits, b: Bucket, failures: seq<int>, now: int, from: int)
    requires l.Valid() && now >= b.resetAt
    requires Knows(l, Some(b), failures, now) && Bounded(l, Some(b), failures, now, from)
    ensures Knows(l, Some(Bucket(0, now + l.window)), failures, now)
    ensures Bounded(l, Some(Bucket(0, now + l.window)), failures, now, from)
  {
    WithinNone(failures, now, now);
    if now <= from {
      WithinNone(failures, from, now);
    } else {
      var past, later := Past(l.window, b.resetAt - l.window - from), Past(l.window, now - from);
      PastWindow(l.window, b.resetAt - l.window - from, now - from);
      TimesMonotone(l.max, past + 1, later);
      TimesStep(l.max, past);
    }
  }

  /** Looking at the bucket later, and replacing it when its window has ended, loses nothing. */
  lemma CurrentKnows(l: Limits, b: Option<Bucket>, failures: seq<int>, before: int, now: int, from: int)
    requires l.Valid() && before <= now
    requires Knows(l, b, failures, before) && Bounded(l, b, failures, before, from)
    ensures Knows(l, Some(Current(l, b, now)), failures, now)
    ensures Bounded(l, Some(Current(l, b, now)), failures, now, from)
  {
    LaterKnows(l, b, failures, before, now, from);
    if b.Some? && now >= b.value.resetAt {
      RenewedKnows(l, b.value, failures, now, from);
    }
  }

  lemma RecordedKnows(l: Limits, b: Bucket, failures: seq<int>, now: int, from: int)
    requires l.Valid() && b.count < l.max && now < b.resetAt
    requires Knows(l, Some(b), failures, now) && Bounded(l, Some(b), failures, now, from)
    ensures Knows(l, Some(Bucket(b.count + 1, b.resetAt)), failures + [now], now)
    ensures Bounded(l, Some(Bucket(b.count + 1, b.resetAt)), failures + [now], now, from)
  {
  }

  lemma AttemptKnows(l: Limits, b: Option<Bucket>, failures: seq<int>, before: int, a: Attempt, from: int)
    requires l.Valid() && before <= a.at <= a.End()
    requires Knows(l, b, failures, before) && Bounded(l, b, failures, before, from)
    requires a.failure.Some? ==> Allowed(l, b, a.at)
    ensures var gated := Some(Current(l, b, a.at));
            var after := if a.failure.Some? then Some(Recorded(l, gated, a.failure.value)) else gated;
            var failed := if a.failure.Some? then failures + [a.failure.value] else failures;
            Knows(l, after, failed, a.End()) && Bounded(l, after, failed, a.End(), from)
  {
    CurrentKnows(l, b, failures, before, a.at, from);
    var gated := Some(Current(l, b, a.at));
    if a.failure.Some? {
      var t := a.failure.value;
      CurrentKnows(l, gated, failures, a.at, t, from);
      RecordedKnows(l, Current(l, gated, t), failures, t, from);
    }
  }

  lemma {:induction false} RunKnows(l: Limits, attempts: seq<Attempt>, key: string, from: int)
    requires l.Valid() && IsRun(l, attempts) && attempts != []
    ensures Knows(l, Lookup(After(l, attempts), key), Failures(attempts, key), attempts[|attempts| - 1].End())
    ensures Bounded(l, Lookup(After(l, attempts), key), Failures(attempts, key), attempts[|attempts| - 1].End(), from)
  {
    var front, last := attempts[..|attempts| - 1], attempts[|attempts| - 1];
    var b, failures := Lookup(After(l, front), key), Failures(front, key);
    var before := if front == [] then last.at else front[|front| - 1].End();
    if front != [] {
      RunKnows(l, front, key, from);
    }
    if last.key == key {
      AttemptKnows(l, b, failures, before, last, from);
      assert Failures(attempts, key) == if last.failure.Some? then failures + [last.failure.value] else failures;
    } else {
      assert Failures(attempts, key) == failures;
      LaterKnows(l, b, failures, before, last.End(), from);
    }
  }

  // ---------------------------------------------------------------------------------------------
  // Results
  // ---------------------------------------------------------------------------------------------

  /** A bucket counts exactly the failures since its window began, and never more than the maximum. */
  lemma CountIsExact(l: Limits, attempts: seq<Attempt>, key: string, b: Bucket)
    requires l.Valid() && IsRun(l, attempts) && attempts != []
    requires Lookup(After(l, attempts), key) == Some(b)
    ensures b.count <= l.max
    ensures b.count == Within(Failures(attempts, key), b.resetAt - l.window, b.resetAt - 1)
  {
    RunKnows(l, attempts, key, 0);
    KnowsCount(l, b, Failures(attempts, key), attempts[|attempts| - 1].End());
  }

  lemma KnowsCount(l: Limits, b: Bucket, failures: seq<int>, now: int)
    requires l.Valid() && Knows(l, Some(b), failures, now)
    ensures b.count == Within(failures, b.resetAt - l.window, b.resetAt - 1)
  {
    WithinSame(failures, b.resetAt - l.window, now, b.resetAt - 1);
  }

  /** A key is refused only when `max` of its failures all lie within one window before now. */
  lemma RefusalIsEarned(l: Limits, attempts: seq<Attempt>, key: string, now: int)
    requires l.Valid() && IsRun(l, attempts)
    requires attempts != [] ==> attempts[|attempts| - 1].End() <= now
    requires !Allowed(l, Lookup(After(l, attempts), key), now)
    ensures Within(Failures(attempts, key), now - l.window + 1, now) >= l.max
  {
    if attempts != [] {
      RunKnows(l, attempts, key, 0);
      var b, last := After(l, attempts)[key], attempts[|attempts| - 1].End();
      WithinNarrower(Failures(attempts, key), now - l.window + 1, now, b.resetAt - l.window, last);
    }
  }

  lemma KnowsBound(l: Limits, b: Bucket, failures: seq<int>, now: int, from: int, to: int)
    requires l.Valid() && Knows(l, Some(b), failures, now) && Bounded(l, Some(b), failures, now, from)
    requires from <= to && now <= to
    ensures Within(failures, from, to) <= l.max * (Past(l.window, to - from) + 1)
  {
    var past, most := Past(l.window, b.resetAt - l.window - from), Past(l.window, to - from);
    WithinSame(failures, from, now, to);
    PastMonotone(l.window, b.resetAt - l.window - from, to - from);
    TimesMonotone(l.max, past, most);
    TimesStep(l.max, most);
  }

  lemma {:induction false} FailuresBoundedFrom(l: Limits, attempts: seq<Attempt>, key: string, from: int, to: int)
    requires l.Valid() && IsRun(l, attempts) && from <= to
    ensures Within(Failures(attempts, key), from, to) <= l.max * (Past(l.window, to - from) + 1)
  {
    if attempts == [] {
      assert Within(Failures(attempts, key), from, to) == 0;
      TimesMonotone(l.max, 0, Past(l.window, to - from) + 1);
    } else {
      var front, last := attempts[..|attempts| - 1], attempts[|attempts| - 1];
      if last.failure.Some? && last.key == key && last.failure.value <= to {
        RunKnows(l, attempts, key, from);
        KnowsBound(l, After(l, attempts)[key], Failures(attempts, key), last.End(), from, to);
      } else {
        FailuresBoundedFrom(l, front, key, from, to);
        SkippedFailure(front, last, key, from, to);
        assert attempts == front + [last];
      }
    }
  }

  lemma SkippedFailure(front: seq<Attempt>, last: Attempt, key: string, from: int, to: int)
    requires !(last.failure.Some? && last.key == key && last.failure.value <= to)
    ensures Within(Failures(front + [last], key), from, to) == Within(Failures(front, key), from, to)
  {
    assert (front + [last])[..|front|] == front;
    if last.failure.Some? && last.key == key {
      var failures := Failures(front + [last], key);
      assert failures[..|failures| - 1] == Failures(front, key);
    } else {
      assert Failures(front + [last], key) == Failures(front, key);
    }
  }

  /**
   From `from` to `to` a key fails at most `max` times for each window needed to cover the stretch, and
   once more for the window already under way when it begins.
   */
  lemma FailuresAreBounded(l: Limits, attempts: seq<Attempt>, key: string, from: int, to: int)
    requires l.Valid() && IsRun(l, attempts) && from <= to
    ensures Within(Failures(attempts, key), from, to) <= l.max * (Past(l.window, to - from) + 1)
    ensures Past(l.window, to - from) + 1 <= (to - from) / l.window + 2
  {
    PastIsAtMostOneOver(l.window, to - from);
    FailuresBoundedFrom(l, attempts, key, from, to);
  }
}
