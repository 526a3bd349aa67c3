/**
 The layer in front of the decision cache: it replaces the caller's security state by the tracker's,
 in whole seconds, and bounds how long a decision taken on that state may live. Durations are
 nanoseconds in int64.
 */
module FreshnessEnforcement {
  import opened Base
  import opened Freshness
  import Cache = DecisionCache

  const Second := Cache.Second
  const DefaultNormalWriteFreshness: int := 30 * Second
  const DefaultSensitiveReadFreshness: int := 60 * Second

  datatype Class = HighRiskWrite | NormalWrite | SensitiveRead | LowRiskRead

  datatype Bounds = Bounds(normalWrite: int, sensitiveRead: int, lowRiskRead: int)

  /** The constructor's check. Go's % truncates, but the bounds are positive here. */
  predicate SafeBounds(b: Bounds) {
    && 0 < b.normalWrite <= DefaultNormalWriteFreshness && 0 < b.sensitiveRead <= DefaultSensitiveReadFreshness
    && 0 < b.lowRiskRead <= MaxInt64
    && b.normalWrite % Second == 0 && b.sensitiveRead % Second == 0 && b.lowRiskRead % Second == 0
  }

  function MaxAge(b: Bounds, c: Class): int {
    match c
    case NormalWrite => b.normalWrite
    case SensitiveRead => b.sensitiveRead
    case _ => b.lowRiskRead
  }

  /** Go's integer division. */
  function TruncDiv(a: int, b: int): int
    requires b > 0
  {
    if a >= 0 then a / b else -((-a) / b)
  }

  function AgeSeconds(age: int): int {
    TruncDiv(Wrap64(Wrap64(age + Second) - 1), Second)
  }

  /** Live asks the authority, Stale denies, Proceed passes this security state on. */
  datatype Admission = Live(security: Cache.SecurityState) | Stale | Proceed(security: Cache.SecurityState)

  function Enforce(b: Bounds, c: Class, s: Snapshot): Admission {
    if c.HighRiskWrite? then Live(Cache.SecurityState(0, 0, 0, 0, 0, 0, false, true))
    else if !s.hasAuthoritativeState || !s.clockHealthy || s.age > MaxAge(b, c) then Stale
    else
      Proceed(Cache.SecurityState(s.epochs.security, s.epochs.tenantPolicy, s.epochs.tenantRevocation,
                                  s.epochs.agentRevocation, AgeSeconds(s.age), MaxAge(b, c) / Second, false, false))
  }

  /**
   The rounded age is the exact ceiling, and stays within the bound, precisely when adding a second
   does not overflow. Only a configured bound of 9223372036 s, some 292 years, admits an age beyond that.
   */
  lemma RoundedAgeIffNoOverflow(age: int, bound: int)
    requires 0 <= age <= bound <= MaxInt64 && bound > 0 && bound % Second == 0
    ensures 0 <= AgeSeconds(age) <= bound / Second && (AgeSeconds(age) - 1) * Second < age <= AgeSeconds(age) * Second
            <==> age + Second <= MaxInt64 + 1
    ensures bound <= 9223372035 * Second ==> age + Second <= MaxInt64 + 1
    ensures AgeSeconds(9223372036 * Second) < 0
  {
  }

  /**
   End to end: a decision taken on an admitted state and stored at once is given at most the smallest of
   its own TTL, the configured maximum, and the true time left in the freshness window. Rounding the
   age up can only shorten it, and by less than a second.
   */
  lemma AdmittedTtlFitsWindow(b: Bounds, c: Class, s: Snapshot, ttlSeconds: int, maxTTL: int)
    requires SafeBounds(b) && !c.HighRiskWrite? && Enforce(b, c, s).Proceed?
    requires s.age >= 0 && s.age + Second <= MaxInt64 + 1
    requires ttlSeconds >= 0 && maxTTL > 0
    ensures var ttl := Cache.Ttl(ttlSeconds, Enforce(b, c, s).security, maxTTL);
            && 0 <= ttl <= maxTTL && ttl <= ttlSeconds * Second && ttl <= MaxAge(b, c) - s.age
            && (ttlSeconds * Second <= MaxInt64 ==>
                  ttl == Cache.Min(Cache.Min(ttlSeconds * Second, maxTTL), MaxAge(b, c) - AgeSeconds(s.age) * Second) &&
                  MaxAge(b, c) - AgeSeconds(s.age) * Second > MaxAge(b, c) - s.age - Second)
  {
    var bound := MaxAge(b, c);
    RoundedAgeIffNoOverflow(s.age, bound);
    Cache.TtlIsBounded(ttlSeconds, Enforce(b, c, s).security, maxTTL);
    assert bound / Second * Second == bound;
  }

  /**
   The expiry is counted from when the entry is stored, the age from when the state was read. With the
   whole window granted, the entry outlives the freshness deadline exactly when the evaluation took
   longer than what rounding the age up had cut off.
   */
  lemma ExpiryMeetsDeadlineIff(b: Bounds, c: Class, s: Snapshot, ttlSeconds: int, maxTTL: int, read: int, stored: int)
    requires SafeBounds(b) && !c.HighRiskWrite? && Enforce(b, c, s).Proceed?
    requires s.age >= 0 && s.age + Second <= MaxInt64 + 1 && read <= stored
    requires ttlSeconds >= 0 && maxTTL > 0
    ensures var ttl := Cache.Ttl(ttlSeconds, Enforce(b, c, s).security, maxTTL);
            var deadline := read - s.age + MaxAge(b, c);
            && stored + ttl <= deadline + (stored - read)
            && (ttl == MaxAge(b, c) - AgeSeconds(s.age) * Second ==>
                  (stored + ttl <= deadline <==> stored - read <= AgeSeconds(s.age) * Second - s.age))
  {
  }

  /** Which configurations are accepted, in whole seconds: at most 30 for writes, 60 for sensitive reads, no overflow for the rest. */
  lemma BoundsInSeconds(normalWrite: int, sensitiveRead: int, lowRiskRead: int)
    ensures SafeBounds(Bounds(normalWrite * 1_000_000_000, sensitiveRead * 1_000_000_000, lowRiskRead * 1_000_000_000)) <==>
            1 <= normalWrite <= 30 && 1 <= sensitiveRead <= 60 && 1 <= lowRiskRead <= 9223372036
  {
  }

  /** The bound each class of action is held to, in nanoseconds: configured, and never looser than the defaults. */
  predicate BoundOf(b: Bounds, c: Class, bound: int) {
    && (c.NormalWrite? ==> bound == b.normalWrite && 0 < bound <= 30_000_000_000)
    && (c.SensitiveRead? ==> bound == b.sensitiveRead && 0 < bound <= 60_000_000_000)
    && (c.LowRiskRead? ==> bound == b.lowRiskRead && 0 < bound)
  }

  /** What the tracker knows of a tenant it vouches for: observed, without gap or lag, and no older than the bound. */
  ghost predicate Vouched(t: Tracker, tenant: string, now: int, bound: int) {
    && tenant != "" && tenant in t.states && t.states[tenant].hasObservation
    && !t.states[tenant].gap && t.states[tenant].authoritative == t.states[tenant].applied
    && 0 <= now - t.states[tenant].observed <= bound
  }

  /** Exactly a vouched state passes, whatever the cache holds, and it carries all four of the tenant's epochs. */
  lemma OnlyFreshStatesReachTheCache(b: Bounds, c: Class, t: Tracker, tenant: string, now: int, bound: int)
    requires SafeBounds(b) && Inv(t) && !c.HighRiskWrite? && BoundOf(b, c, bound)
    ensures Enforce(b, c, SnapshotOf(t, tenant, now)).Proceed? <==> Vouched(t, tenant, now, bound)
    ensures Enforce(b, c, SnapshotOf(t, tenant, now)).Proceed? <==> Fresh(t, tenant, now, bound)
    ensures !Vouched(t, tenant, now, bound) ==> Enforce(b, c, SnapshotOf(t, tenant, now)).Stale?
    ensures Vouched(t, tenant, now, bound) ==>
              var security, epochs := Enforce(b, c, SnapshotOf(t, tenant, now)).security, t.states[tenant].epochs;
              && security.globalEpoch == epochs.security && security.tenantPolicyEpoch == epochs.tenantPolicy
              && security.tenantRevocationEpoch == epochs.tenantRevocation && security.agentRevocationEpoch == epochs.agentRevocation
              && security.freshnessMaxAgeSeconds * 1_000_000_000 == bound && !security.authoritative && !security.hasGap
  {
    if tenant in t.states { assert Sound(t.states[tenant]); }
  }

  /** Every class but the high-risk one has a bound, and a safe configuration gives exactly one. */
  lemma BoundIsUnique(b: Bounds, c: Class, bound: int)
    requires SafeBounds(b) && !c.HighRiskWrite?
    ensures BoundOf(b, c, bound) <==> bound == MaxAge(b, c)
  {
  }

  // ---- The evaluator ---------------------------------------------------------------------------

  datatype Reply = Denied | Unavailable | Answered(result: Result<Cache.Outcome, string>)

  class FreshnessEnforcingEvaluator {
    const tracker: RevocationFreshnessTracker
    const bounds: Bounds

    ghost predicate Valid()
      reads this, tracker
    {
      tracker.Valid() && SafeBounds(bounds)
    }

    constructor (tracker: RevocationFreshnessTracker, bounds: Bounds)
      requires tracker.Valid() && SafeBounds(bounds)
      ensures Valid() && this.tracker == tracker && this.bounds == bounds
    {
      this.tracker := tracker;
      this.bounds := bounds;
    }

    /**
     `next` is the evaluator behind, as a function of the security state it is given. A high-risk write always asks the
     authority and may not be allowed with a lifetime; anything else is denied unless the tracker vouches for the tenant.
     */
    method Decide(tenant: string, c: Class, now: int, next: Cache.SecurityState -> Result<Cache.Outcome, string>) returns (reply: Reply)
      requires Valid()
      modifies tracker
      ensures Valid() && tracker.View() == Observe(old(tracker.View()), Track(tenant))
      ensures c.HighRiskWrite? ==>
                Enforce(bounds, c, SnapshotOf(old(tracker.View()), tenant, now)) == Live(Cache.SecurityState(0, 0, 0, 0, 0, 0, false, true)) &&
                var result := next(Cache.SecurityState(0, 0, 0, 0, 0, 0, false, true));
                if result.Ok? && result.value.decision.allow && result.value.decision.ttlSeconds != 0
                then reply == Unavailable else reply == Answered(result)
      ensures !c.HighRiskWrite? && !Vouched(old(tracker.View()), tenant, now, MaxAge(bounds, c)) ==> reply == Denied
      ensures !c.HighRiskWrite? && Vouched(old(tracker.View()), tenant, now, MaxAge(bounds, c)) ==>
                var security := Enforce(bounds, c, SnapshotOf(old(tracker.View()), tenant, now)).security;
                reply == Answered(next(security)) && !security.authoritative
    {
      ghost var before := tracker.View();
      tracker.TrackTenant(tenant);
      if c.HighRiskWrite? {
        var result := next(Cache.SecurityState(0, 0, 0, 0, 0, 0, false, true));
        if result.Ok? && result.value.decision.allow && result.value.decision.ttlSeconds != 0 { return Unavailable; }
        return Answered(result);
      }
      BoundIsUnique(bounds, c, MaxAge(bounds, c));
      OnlyFreshStatesReachTheCache(bounds, c, before, tenant, now, MaxAge(bounds, c));
      var state := tracker.TakeSnapshot(tenant, now);
      assert state == SnapshotOf(before, tenant, now);
      var maxAge := MaxAge(bounds, c);
      if !state.hasAuthoritativeState || !state.clockHealthy || state.age > maxAge { return Denied; }
      reply := Answered(next(Cache.SecurityState(state.epochs.security, state.epochs.tenantPolicy, state.epochs.tenantRevocation,
                                                 state.epochs.agentRevocation, AgeSeconds(state.age), maxAge / Second, false, false)));
    }
  }
}
