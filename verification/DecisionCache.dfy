/**
 The caching evaluator: what a hit may be, how long it may live, and the race between calls that
 store decisions and invalidations that advance the cache generation.
 */
module DecisionCache {
  import opened Base
  import opened Constraints
  import Normalize

  const Second: int := 1_000_000_000
  const MaxLocalDecisionEntries: nat := 1024
  const ContractVersion: string := "thinkpixelag.authorization/v1alpha1"

  datatype SecurityState = SecurityState(globalEpoch: int, tenantPolicyEpoch: int, tenantRevocationEpoch: int,
                                         agentRevocationEpoch: int, ageSeconds: int, freshnessMaxAgeSeconds: int,
                                         hasGap: bool, authoritative: bool)

  /** `subjectAndResource` stands for the remaining identity, resource and agent fields, all digested. */
  datatype Input = Input(decisionId: string, requestTime: int, requestId: string, tenant: string, action: string,
                         roles: Normalize.Slice, authenticationMethods: Normalize.Slice, subjectAndResource: string,
                         requested: Fields, authority: Fields, security: SecurityState)

  datatype Obligation = Obligation(kind: string, mandatory: bool)

  /** Absent JSON maps and arrays are None. */
  datatype Decision = Decision(contractVersion: string, decisionId: string, allow: bool, reasonCodes: seq<string>,
                               resolved: Option<Fields>, obligations: Option<seq<Obligation>>, ttlSeconds: int)

  datatype Metadata = Metadata(policyDigest: string, policyVersion: int, inputDigest: Input, cacheStatus: string)

  datatype Outcome = Outcome(decision: Decision, metadata: Metadata)

  const ReasonCodes: set<string> := {
    "agent.discover.allowed", "agent.invoke.allowed", "run.access.allowed", "workload.operation.allowed",
    "governance.operation.allowed", "resource.extension.approved", "identity.invalid", "tenant.mismatch",
    "resource.not_visible", "agent.not_approved", "agent.revoked", "principal.revoked", "policy.revoked",
    "security_state.stale", "security_state.gap", "constraint.expands_authority", "approval.required",
    "action.not_permitted", "contract.invalid" }

  /** The digest, as the canonical value it is an injective hash of: request evidence is left out. */
  function AuthorizationDigest(input: Input): Input {
    input.(decisionId := "", requestTime := 0, requestId := "",
         roles := Normalize.NormalizedSlice(input.roles),
         authenticationMethods := Normalize.NormalizedSlice(input.authenticationMethods))
  }

  /** Two requests for the same authorization: only decision ID, request time and request ID may differ. */
  ghost predicate SameAuthorization(x: Input, y: Input) {
    && x.tenant == y.tenant && x.action == y.action && x.subjectAndResource == y.subjectAndResource
    && x.requested == y.requested && x.authority == y.authority && x.security == y.security
    && Normalize.SameNames(x.roles, y.roles) && Normalize.SameNames(x.authenticationMethods, y.authenticationMethods)
  }

  /** What the digest covers: neither more nor less than the authorization asked for. */
  lemma DigestIffSameAuthorization(x: Input, y: Input)
    ensures AuthorizationDigest(x) == AuthorizationDigest(y) <==> SameAuthorization(x, y)
  {
    Normalize.SlicesAlikeIff(x.roles, y.roles);
    Normalize.SlicesAlikeIff(x.authenticationMethods, y.authenticationMethods);
  }

  predicate ValidDecision(d: Decision, input: Input, maxTTL: int) {
    && d.contractVersion == ContractVersion && d.decisionId == input.decisionId
    && 0 < |d.reasonCodes| <= 16 && d.resolved.Some? && d.obligations.Some? && d.ttlSeconds >= 0
    && (forall c :: c in d.reasonCodes ==> c in ReasonCodes)
    && (forall o :: o in d.obligations.value ==> o.kind != "" && !o.mandatory)
    && Wrap64(d.ttlSeconds * Second) <= maxTTL
    && Narrow(d.resolved.value, input.authority)
    && (if d.allow && input.action == "runs.create"
        then Resolve(input.authority, input.requested, d.resolved).Some?
        else Narrow(d.resolved.value, input.requested))
  }

  // ---- Entries and hits ------------------------------------------------------------------------

  datatype Entry = Entry(decision: Decision, policyDigest: string, policyVersion: int, inputDigest: Input, expiresAt: int)

  function EntryFor(o: Outcome, inputDigest: Input, expiresAt: int): Entry {
    Entry(o.decision.(decisionId := ""), o.metadata.policyDigest, o.metadata.policyVersion, inputDigest, expiresAt)
  }

  function Decode(e: Entry, input: Input, digest: string, version: int, inputDigest: Input, now: int, maxTTL: int)
    : Option<Outcome>
  {
    var d := e.decision.(decisionId := input.decisionId);
    if e.policyDigest != digest || e.policyVersion != version || e.inputDigest != inputDigest || now >= e.expiresAt ||
       !ValidDecision(d, input, maxTTL)
    then None
    else
      var resolves := d.allow && input.action == "runs.create";
      var resolved := if resolves then Resolve(input.authority, input.requested, d.resolved) else d.resolved;
      if resolved.None? then None
      else Some(Outcome(d.(resolved := resolved), Metadata(digest, version, inputDigest, "hit")))
  }

  /**
   What the wrapped evaluator returns: a decision valid for its input, whose constraints, for an
   allowed `runs.create`, it has already resolved.
   */
  ghost predicate Evaluated(input: Input, o: Outcome, maxTTL: int) {
    && Json(Obj(input.authority)) && Json(Obj(input.requested))
    && exists raw: Option<Fields> ::
         && ValidDecision(o.decision.(resolved := raw), input, maxTTL)
         && o.decision.resolved == (if o.decision.allow && input.action == "runs.create"
                                    then Resolve(input.authority, input.requested, raw) else raw)
  }

  /** Resolving before returning leaves a decision that passes validation again. */
  lemma EvaluatedIsValid(input: Input, o: Outcome, maxTTL: int)
    requires Evaluated(input, o, maxTTL)
    ensures ValidDecision(o.decision, input, maxTTL)
    ensures o.decision.allow && input.action == "runs.create" ==>
              Resolve(input.authority, input.requested, o.decision.resolved) == o.decision.resolved
  {
    var raw: Option<Fields> :|
      && ValidDecision(o.decision.(resolved := raw), input, maxTTL)
      && o.decision.resolved == (if o.decision.allow && input.action == "runs.create"
                                 then Resolve(input.authority, input.requested, raw) else raw);
    if o.decision.allow && input.action == "runs.create" {
      ResolveIdempotent(input.authority, input.requested, raw);
      ResolveNarrowsAuthority(input.authority, input.requested, raw);
    } else {
      assert o.decision == o.decision.(resolved := raw);
    }
  }

  /** Validity depends on the input only through what the digest covers, and the decision ID. */
  lemma ValidityFollowsDigest(d: Decision, in1: Input, in2: Input, maxTTL: int)
    requires AuthorizationDigest(in1) == AuthorizationDigest(in2)
    ensures ValidDecision(d.(decisionId := in1.decisionId), in1, maxTTL) <==>
            ValidDecision(d.(decisionId := in2.decisionId), in2, maxTTL)
  {
  }

  /**
   Transparency: an entry stored for one input answers another exactly when it asks for the same
   authorization under the same policy and version and its expiry lies ahead; the hit is the
   evaluator's decision under the new ID.
   */
  lemma HitIsTransparent(stored: Input, o: Outcome, expiresAt: int, input: Input, digest: string, version: int, now: int, maxTTL: int)
    requires Evaluated(stored, o, maxTTL)
    ensures var e := EntryFor(o, AuthorizationDigest(stored), expiresAt);
            var hit := Decode(e, input, digest, version, AuthorizationDigest(input), now, maxTTL);
            && (hit.Some? <==>
                  && o.metadata.policyDigest == digest && o.metadata.policyVersion == version
                  && SameAuthorization(stored, input) && now < expiresAt)
            && (hit.Some? ==>
                  hit.value == Outcome(o.decision.(decisionId := input.decisionId),
                                       Metadata(digest, version, AuthorizationDigest(input), "hit")))
  {
    EvaluatedIsValid(stored, o, maxTTL);
    DigestIffSameAuthorization(stored, input);
    var e := EntryFor(o, AuthorizationDigest(stored), expiresAt);
    var d := e.decision.(decisionId := input.decisionId);
    assert d == o.decision.(decisionId := input.decisionId);
    if AuthorizationDigest(stored) == AuthorizationDigest(input) {
      ValidityFollowsDigest(o.decision, stored, input, maxTTL);
      assert o.decision == o.decision.(decisionId := stored.decisionId);
      assert stored.authority == input.authority && stored.requested == input.requested && stored.action == input.action;
      if o.decision.allow && input.action == "runs.create" {
        assert d.(resolved := Resolve(input.authority, input.requested, d.resolved)) == d;
      }
    }
  }

  /** The parts of a decision that do not depend on what was asked. */
  ghost predicate WellFormed(d: Decision, maxTTL: int) {
    && d.contractVersion == ContractVersion && 1 <= |d.reasonCodes| <= 16 && (forall c :: c in d.reasonCodes ==> c in ReasonCodes)
    && d.resolved.Some? && d.obligations.Some? && (forall o :: o in d.obligations.value ==> o.kind != "" && !o.mandatory)
    && 0 <= d.ttlSeconds && Wrap64(d.ttlSeconds * Second) <= maxTTL
  }

  /** The constraints a decision carries fit what the caller may have and asked for. */
  ghost predicate Fits(allow: bool, resolved: Fields, input: Input) {
    && Narrow(resolved, input.authority)
    && (if allow && input.action == "runs.create" then Resolve(input.authority, input.requested, Some(resolved)).Some?
        else Narrow(resolved, input.requested))
  }

  lemma ValidIff(d: Decision, input: Input, maxTTL: int)
    ensures ValidDecision(d.(decisionId := input.decisionId), input, maxTTL) <==>
            WellFormed(d, maxTTL) && Fits(d.allow, d.resolved.value, input)
  {
  }

  /**
   Nothing is assumed of the entry, so whatever another process left in the shared cache: it is served
   exactly when it is current, well formed and fits the caller's authority and request.
   */
  lemma ServedIff(e: Entry, input: Input, digest: string, version: int, now: int, maxTTL: int)
    ensures Decode(e, input, digest, version, AuthorizationDigest(input), now, maxTTL).Some? <==>
            && e.policyDigest == digest && e.policyVersion == version && e.inputDigest == AuthorizationDigest(input) && now < e.expiresAt
            && WellFormed(e.decision, maxTTL) && Fits(e.decision.allow, e.decision.resolved.value, input)
  {
    ValidIff(e.decision, input, maxTTL);
  }

  /** And then it is the stored decision under the caller's ID, no wider than authority, request or what was stored. */
  lemma HitsAreWithinAuthority(e: Entry, input: Input, digest: string, version: int, now: int, maxTTL: int, hit: Outcome)
    requires Decode(e, input, digest, version, AuthorizationDigest(input), now, maxTTL) == Some(hit)
    ensures hit.decision == e.decision.(decisionId := input.decisionId, resolved := hit.decision.resolved)
    ensures hit.decision.resolved.Some? && e.decision.resolved.Some?
    ensures var served, stored := hit.decision.resolved.value, e.decision.resolved.value;
            if hit.decision.allow && input.action == "runs.create"
            then Tighter(Obj(served), Obj(input.authority)) && Tighter(Obj(served), Obj(input.requested)) && Tighter(Obj(served), Obj(stored))
            else served == stored && Narrow(served, input.authority) && Narrow(served, input.requested)
  {
    ValidIff(e.decision, input, maxTTL);
    if hit.decision.allow && input.action == "runs.create" {
      ResolveIsMeet(input.authority, input.requested, e.decision.resolved.value, Obj(input.authority));
    }
  }

  /** Two outcomes are stored alike exactly when they differ in nothing but the decision ID. */
  lemma StoredAlikeIff(o: Outcome, other: Outcome, inputDigest: Input, expiresAt: int)
    ensures EntryFor(o, inputDigest, expiresAt) == EntryFor(other, inputDigest, expiresAt) <==>
            && o.decision == other.decision.(decisionId := o.decision.decisionId)
            && o.metadata.policyDigest == other.metadata.policyDigest && o.metadata.policyVersion == other.metadata.policyVersion
  {
    if EntryFor(o, inputDigest, expiresAt) == EntryFor(other, inputDigest, expiresAt) {
      assert o.decision.(decisionId := "") == other.decision.(decisionId := "");
    }
  }

  // ---- Time to live ----------------------------------------------------------------------------

  function Min(a: int, b: int): int {
    if a < b then a else b
  }

  /** Nanoseconds; every product and difference is taken in int64, as the code takes it. */
  function Ttl(ttlSeconds: int, security: SecurityState, maxTTL: int): int {
    var ttl := Wrap64(ttlSeconds * Second);
    if ttl <= 0 then 0
    else if security.authoritative then Min(ttl, maxTTL)
    else if security.freshnessMaxAgeSeconds <= 0 then 0
    else
      var remaining := Wrap64(Wrap64(security.freshnessMaxAgeSeconds - security.ageSeconds) * Second);
      if remaining <= 0 then 0 else Min(Min(ttl, maxTTL), remaining)
  }

  /** A stored decision never outlives its own TTL, the configured maximum, or the freshness window left to it. */
  lemma TtlIsBounded(ttlSeconds: int, security: SecurityState, maxTTL: int)
    requires ttlSeconds >= 0 && maxTTL > 0
    requires 0 <= security.ageSeconds <= security.freshnessMaxAgeSeconds <= MaxInt64 && !security.authoritative
    ensures 0 <= Ttl(ttlSeconds, security, maxTTL) <= maxTTL
    ensures Ttl(ttlSeconds, security, maxTTL) <= ttlSeconds * Second
    ensures Ttl(ttlSeconds, security, maxTTL) <= (security.freshnessMaxAgeSeconds - security.ageSeconds) * Second
    ensures ttlSeconds * Second <= MaxInt64 && security.freshnessMaxAgeSeconds * Second <= MaxInt64 ==>
              Ttl(ttlSeconds, security, maxTTL) ==
              Min(Min(ttlSeconds * Second, maxTTL), (security.freshnessMaxAgeSeconds - security.ageSeconds) * Second)
  {
  }

  /**
   Without the enforcement layer in front, an age beyond its bound can wrap into a positive window.
   A stale state gets no lifetime exactly when the wrapped difference stays nonpositive, as it does
   for every age within 9223372036 seconds of the bound.
   */
  lemma StaleTtlIsZeroIff(ttlSeconds: int, security: SecurityState, maxTTL: int)
    requires maxTTL > 0 && !security.authoritative && Wrap64(ttlSeconds * Second) > 0
    requires 0 < security.freshnessMaxAgeSeconds < security.ageSeconds <= MaxInt64
    ensures Ttl(ttlSeconds, security, maxTTL) == 0 <==>
              Wrap64((security.freshnessMaxAgeSeconds - security.ageSeconds) * Second) <= 0
    ensures security.ageSeconds - security.freshnessMaxAgeSeconds <= 9223372036 ==> Ttl(ttlSeconds, security, maxTTL) == 0
    ensures Ttl(1, SecurityState(0, 0, 0, 0, 9223372038, 1, false, false), Second) == Second
  {
  }

  // ---- The evaluator ---------------------------------------------------------------------------

  /** The hashed key; `material` injectivity makes these fields, and so the key, all that matters. */
  datatype Key = Key(policyDigest: string, policyVersion: int, globalGeneration: int, tenantGeneration: int, inputDigest: Input)

  datatype LocalEntry = LocalEntry(tenant: string, entry: Entry, expiresAt: int)

  /** What InvalidateTenant leaves of the local map: nothing of that tenant, nothing at all for "". */
  function Invalidated(local: map<Key, LocalEntry>, tenant: string): map<Key, LocalEntry> {
    map k | k in local && tenant != "" && local[k].tenant != tenant :: local[k]
  }

  function Generation(generation: map<string, int>, tenant: string): int {
    if tenant in generation then generation[tenant] else 0
  }

  /** An entry that some evaluation produced for an input with the entry's digest. */
  ghost predicate Genuine(e: Entry, maxTTL: int) {
    exists input, o :: Evaluated(input, o, maxTTL) && e == EntryFor(o, AuthorizationDigest(input), e.expiresAt)
  }

  ghost predicate AllGenuine(entries: set<Entry>, maxTTL: int) {
    forall e :: e in entries ==> Genuine(e, maxTTL)
  }

  /** Every hit on a genuine entry is a decision of the wrapped evaluator, served before its expiry. */
  lemma GenuineHitIsEvaluated(e: Entry, input: Input, digest: string, version: int, now: int, maxTTL: int)
    returns (stored: Input, o: Outcome)
    requires Genuine(e, maxTTL)
    requires Decode(e, input, digest, version, AuthorizationDigest(input), now, maxTTL).Some?
    ensures Evaluated(stored, o, maxTTL) && SameAuthorization(stored, input) && AuthorizationDigest(stored) == AuthorizationDigest(input)
    ensures o.metadata.policyDigest == digest && o.metadata.policyVersion == version && now < e.expiresAt
    ensures Decode(e, input, digest, version, AuthorizationDigest(input), now, maxTTL).value.decision ==
            o.decision.(decisionId := input.decisionId)
  {
    stored, o :| Evaluated(stored, o, maxTTL) && e == EntryFor(o, AuthorizationDigest(stored), e.expiresAt);
    HitIsTransparent(stored, o, e.expiresAt, input, digest, version, now, maxTTL);
    DigestIffSameAuthorization(stored, input);
  }

  /** This outcome is a decision the wrapped evaluator made for the same authorization under this policy, with the caller's ID. */
  ghost predicate AnsweredBy(input: Input, digest: string, version: int, maxTTL: int, stored: Input, o: Outcome, result: Outcome) {
    && Evaluated(stored, o, maxTTL) && SameAuthorization(stored, input)
    && o.metadata.policyDigest == digest && o.metadata.policyVersion == version
    && result.decision == o.decision.(decisionId := input.decisionId)
  }

  lemma GenuineIsAnswered(e: Entry, input: Input, digest: string, version: int, now: int, maxTTL: int)
    requires Genuine(e, maxTTL) && Decode(e, input, digest, version, AuthorizationDigest(input), now, maxTTL).Some?
    ensures exists stored, o :: AnsweredBy(input, digest, version, maxTTL, stored, o,
                                           Decode(e, input, digest, version, AuthorizationDigest(input), now, maxTTL).value)
  {
    var stored, o := GenuineHitIsEvaluated(e, input, digest, version, now, maxTTL);
    assert AnsweredBy(input, digest, version, maxTTL, stored, o,
                      Decode(e, input, digest, version, AuthorizationDigest(input), now, maxTTL).value);
  }

  lemma StoredIsGenuine(entries: set<Entry>, input: Input, o: Outcome, expiresAt: int, maxTTL: int)
    requires AllGenuine(entries, maxTTL) && Evaluated(input, o, maxTTL)
    ensures AllGenuine(entries + {EntryFor(o, AuthorizationDigest(input), expiresAt)}, maxTTL)
  {
  }

  /** The local entry, while it lasts and decodes for this request. */
  function Held(local: map<Key, LocalEntry>, key: Key, input: Input, digest: string, version: int, now: int, maxTTL: int): Option<Outcome> {
    if key in local && now < local[key].expiresAt
    then Decode(local[key].entry, input, digest, version, AuthorizationDigest(input), now, maxTTL) else None
  }

  /** What a lookup finds: the local entry, else the shared one if it decodes for this request. */
  function Served(local: map<Key, LocalEntry>, key: Key, remote: Option<Entry>, input: Input, digest: string, version: int,
                  now: int, maxTTL: int): Option<Outcome> {
    var here := Held(local, key, input, digest, version, now, maxTTL);
    if here.Some? then here
    else if remote.Some? then Decode(remote.value, input, digest, version, AuthorizationDigest(input), now, maxTTL)
    else None
  }

  class CachedEvaluator {
    const maxTTL: int
    var generation: map<string, int>
    var local: map<Key, LocalEntry>
    /** Every entry this instance ever built from an evaluation. */
    ghost var entries: set<Entry>

    ghost predicate Valid()
      reads this
    {
      && maxTTL > 0
      && |local| <= MaxLocalDecisionEntries
      && forall k :: k in local ==> local[k].entry in entries
    }

    constructor (maxTTL: int)
      requires maxTTL > 0
      ensures Valid() && this.maxTTL == maxTTL && generation == map[] && local == map[] && entries == {}
    {
      this.maxTTL := maxTTL;
      generation, local, entries := map[], map[], {};
    }

    /** Advances the generation, wrapping as uint64 does, and drops the tenant's local entries. */
    method InvalidateTenant(tenant: string)
      requires Valid()
      modifies this`generation, this`local
      ensures Valid()
      ensures local == Invalidated(old(local), tenant)
      ensures generation == old(generation)[tenant := (Generation(old(generation), tenant) + 1) % Two64]
    {
      generation := generation[tenant := (Generation(generation, tenant) + 1) % Two64];
      var kept := local;
      if tenant == "" {
        kept := map[];
      } else {
        var todo := local.Keys;
        while todo != {}
          invariant todo <= kept.Keys <= local.Keys
          invariant forall k :: k in kept ==> kept[k] == local[k]
          invariant forall k :: k in local && k !in kept ==> local[k].tenant == tenant
          invariant forall k :: k in kept && k !in todo ==> kept[k].tenant != tenant
          decreases |todo|
        {
          var key :| key in todo;
          if kept[key].tenant == tenant { kept := kept - {key}; }
          todo := todo - {key};
        }
      }
      assert kept == Invalidated(local, tenant);
      SubmapSize(kept, local);
      local := kept;
    }

    /** Makes room by dropping an arbitrary entry once the map is full, even when the key is present. */
    method LocalSet(key: Key, tenant: string, entry: Entry, expiresAt: int)
      requires Valid() && entry in entries
      modifies this`local
      ensures Valid()
      ensures key in local && local[key] == LocalEntry(tenant, entry, expiresAt)
      ensures forall k :: k in local && k != key ==> k in old(local) && local[k] == old(local)[k]
      ensures |old(local)| < MaxLocalDecisionEntries ==> old(local).Keys <= local.Keys
    {
      var room := local;
      if |local| >= MaxLocalDecisionEntries {
        var candidate :| candidate in local;
        RemovalShrinks(local, candidate);
        room := local - {candidate};
      }
      InsertionSize(room, key, LocalEntry(tenant, entry, expiresAt));
      local := room[key := LocalEntry(tenant, entry, expiresAt)];
    }

    function KeyFor(input: Input, digest: string, version: int): Key
      reads this`generation
    {
      Key(digest, version, Generation(generation, ""), Generation(generation, input.tenant), AuthorizationDigest(input))
    }

    /** The local map first, then what the shared cache returned; a remote hit is copied into the local map. */
    method Lookup(input: Input, digest: string, version: int, remote: Option<Entry>, now: int, store: int)
      returns (found: Option<Outcome>, ghost source: Option<Entry>)
      requires Valid() && (remote.Some? ==> remote.value in entries)
      modifies this`local
      ensures Valid()
      ensures found.None? ==> local == old(local)
      ensures found.Some? ==>
                var key := KeyFor(input, digest, version);
                if Held(old(local), key, input, digest, version, now, maxTTL).Some? then local == old(local)
                else remote.Some? && key in local &&
                     local[key] == LocalEntry(input.tenant, remote.value, store + Ttl(found.value.decision.ttlSeconds, input.security, maxTTL))
      ensures found == Served(old(local), KeyFor(input, digest, version), remote, input, digest, version, now, maxTTL)
      ensures found.Some? ==> source.Some? && source.value in entries &&
                              Decode(source.value, input, digest, version, AuthorizationDigest(input), now, maxTTL) == found
    {
      var key := KeyFor(input, digest, version);
      source := None;
      if key in local && now < local[key].expiresAt {
        found := Decode(local[key].entry, input, digest, version, AuthorizationDigest(input), now, maxTTL);
        source := Some(local[key].entry);
        if found.Some? { return; }
      }
      found := None;
      if remote.Some? {
        found := Decode(remote.value, input, digest, version, AuthorizationDigest(input), now, maxTTL);
        source := remote;
        if found.Some? {
          LocalSet(key, input.tenant, remote.value, store + Ttl(found.value.decision.ttlSeconds, input.security, maxTTL));
        }
      }
    }

    /** Remembers an evaluation for as long as it may be reused, if at all. */
    method Remember(key: Key, input: Input, o: Outcome, store: int)
      requires Valid()
      modifies this`local, this`entries
      ensures Valid()
      ensures var ttl := Ttl(o.decision.ttlSeconds, input.security, maxTTL);
              var entry := EntryFor(o, AuthorizationDigest(input), store + ttl);
              if ttl > 0 then
                key in local && local[key] == LocalEntry(input.tenant, entry, store + ttl) && entries == old(entries) + {entry}
              else local == old(local) && entries == old(entries)
    {
      var ttl := Ttl(o.decision.ttlSeconds, input.security, maxTTL);
      if ttl > 0 {
        var entry := EntryFor(o, AuthorizationDigest(input), store + ttl);
        entries := entries + {entry};
        LocalSet(key, input.tenant, entry, store + ttl);
      }
    }

    /** The cached path of a call under a known active policy: look up, else evaluate and remember. */
    method Serve(input: Input, digest: string, version: int, remote: Option<Entry>, live: Result<Outcome, string>, now: int, store: int)
      returns (result: Result<Outcome, string>, hit: bool, ghost source: Option<Entry>)
      requires Valid() && (remote.Some? ==> remote.value in entries)
      modifies this`local, this`entries
      ensures Valid()
      ensures hit <==> Served(old(local), KeyFor(input, digest, version), remote, input, digest, version, now, maxTTL).Some?
      ensures hit ==> result.Ok? && entries == old(entries) && source.Some? && source.value in entries &&
                      Decode(source.value, input, digest, version, AuthorizationDigest(input), now, maxTTL) == Some(result.value)
      ensures hit ==>
                var key := KeyFor(input, digest, version);
                if Held(old(local), key, input, digest, version, now, maxTTL).Some? then local == old(local)
                else remote.Some? && key in local &&
                     local[key] == LocalEntry(input.tenant, remote.value, store + Ttl(result.value.decision.ttlSeconds, input.security, maxTTL))
      ensures !hit && live.Err? ==> result == live && local == old(local) && entries == old(entries)
      ensures !hit && live.Ok? ==>
                var ttl := Ttl(live.value.decision.ttlSeconds, input.security, maxTTL);
                var key := KeyFor(input, digest, version);
                var entry := EntryFor(live.value, AuthorizationDigest(input), store + ttl);
                && result == Ok(live.value.(metadata := live.value.metadata.(cacheStatus := "miss")))
                && (ttl > 0 ==> key in local && local[key] == LocalEntry(input.tenant, entry, store + ttl) && entries == old(entries) + {entry})
                && (ttl <= 0 ==> local == old(local) && entries == old(entries))
    {
      var found;
      found, source := Lookup(input, digest, version, remote, now, store);
      if found.Some? { return Ok(found.value), true, source; }
      if live.Err? { return live, false, None; }
      Remember(KeyFor(input, digest, version), input, live.value, store);
      return Ok(live.value.(metadata := live.value.metadata.(cacheStatus := "miss"))), false, None;
    }

    /** Bypass for authoritative requests and without an active policy; the cached path otherwise. */
    method Route(input: Input, active: Option<(string, int)>, remote: Option<Entry>, live: Result<Outcome, string>,
                 now: int, store: int) returns (result: Result<Outcome, string>, hit: bool, ghost source: Option<Entry>)
      requires Valid() && (remote.Some? ==> remote.value in entries)
      modifies this`local, this`entries
      ensures Valid()
      ensures entries == old(entries) ||
              (live.Ok? && var ttl := Ttl(live.value.decision.ttlSeconds, input.security, maxTTL);
                           entries == old(entries) + {EntryFor(live.value, AuthorizationDigest(input), store + ttl)})
      ensures input.security.authoritative ==> !hit && local == old(local)
      ensures !hit && live.Err? ==> result == live && local == old(local)
      ensures !hit && live.Ok? ==>
                var status := if input.security.authoritative then "bypass" else if active.Some? then "miss" else live.value.metadata.cacheStatus;
                result == Ok(live.value.(metadata := live.value.metadata.(cacheStatus := status)))
      ensures hit <==> !input.security.authoritative && active.Some? &&
                       Served(old(local), KeyFor(input, active.value.0, active.value.1), remote, input, active.value.0, active.value.1, now, maxTTL).Some?
      ensures hit ==> result.Ok? && source.Some? && source.value in old(entries) &&
                      Decode(source.value, input, active.value.0, active.value.1, AuthorizationDigest(input), now, maxTTL) == Some(result.value)
      ensures hit ==>
                var key := KeyFor(input, active.value.0, active.value.1);
                if Held(old(local), key, input, active.value.0, active.value.1, now, maxTTL).Some? then local == old(local)
                else remote.Some? && key in local &&
                     local[key] == LocalEntry(input.tenant, remote.value, store + Ttl(result.value.decision.ttlSeconds, input.security, maxTTL))
      ensures !hit && !input.security.authoritative && active.Some? && live.Ok? ==>
                var ttl := Ttl(live.value.decision.ttlSeconds, input.security, maxTTL);
                var key := KeyFor(input, active.value.0, active.value.1);
                ttl > 0 ==> key in local && local[key] == LocalEntry(input.tenant, EntryFor(live.value, AuthorizationDigest(input), store + ttl), store + ttl)
    {
      if live.Ok? && input.security.authoritative {
        return Ok(live.value.(metadata := live.value.metadata.(cacheStatus := "bypass"))), false, None;
      }
      if input.security.authoritative || active.None? { return live, false, None; }
      result, hit, source := Serve(input, active.value.0, active.value.1, remote, live, now, store);
    }

    /**
     One call. `active` is the fresh active policy, `remote` what the shared cache holds under the key,
     `live` what the wrapped evaluator answers if asked; `now` and `store` are the clock at either end.
     A hit is a decision the evaluator made for the same authorization under the active policy.
     */
    method Decide(input: Input, active: Option<(string, int)>, remote: Option<Entry>, live: Result<Outcome, string>,
                  now: int, store: int) returns (result: Result<Outcome, string>, hit: bool)
      requires Valid() && AllGenuine(entries, maxTTL)
      requires live.Ok? ==> Evaluated(input, live.value, maxTTL)
      requires remote.Some? ==> remote.value in entries
      modifies this`local, this`entries
      ensures Valid() && AllGenuine(entries, maxTTL) && old(entries) <= entries
      ensures input.security.authoritative ==> !hit && local == old(local)
      ensures !hit && live.Err? ==> result == live && local == old(local)
      ensures !hit && live.Ok? ==>
                var status := if input.security.authoritative then "bypass" else if active.Some? then "miss" else live.value.metadata.cacheStatus;
                result == Ok(live.value.(metadata := live.value.metadata.(cacheStatus := status)))
      ensures hit <==> !input.security.authoritative && active.Some? &&
                       Served(old(local), KeyFor(input, active.value.0, active.value.1), remote, input, active.value.0, active.value.1, now, maxTTL).Some?
      ensures hit ==> result.Ok? && exists stored, o :: AnsweredBy(input, active.value.0, active.value.1, maxTTL, stored, o, result.value)
      ensures hit ==>
                var key := KeyFor(input, active.value.0, active.value.1);
                if Held(old(local), key, input, active.value.0, active.value.1, now, maxTTL).Some? then local == old(local)
                else remote.Some? && key in local &&
                     local[key] == LocalEntry(input.tenant, remote.value, store + Ttl(result.value.decision.ttlSeconds, input.security, maxTTL))
      ensures !hit && !input.security.authoritative && active.Some? && live.Ok? ==>
                var ttl := Ttl(live.value.decision.ttlSeconds, input.security, maxTTL);
                var key := KeyFor(input, active.value.0, active.value.1);
                ttl > 0 ==> key in local && local[key] == LocalEntry(input.tenant, EntryFor(live.value, AuthorizationDigest(input), store + ttl), store + ttl)
    {
      if live.Ok? {
        StoredIsGenuine(entries, input, live.value, store + Ttl(live.value.decision.ttlSeconds, input.security, maxTTL), maxTTL);
      }
      ghost var source;
      result, hit, source := Route(input, active, remote, live, now, store);
      if hit { GenuineIsAnswered(source.value, input, active.value.0, active.value.1, now, maxTTL); }
    }
  }

  lemma SubmapSize<K, V>(small: map<K, V>, large: map<K, V>)
    requires small.Keys <= large.Keys
    ensures |small| <= |large|
  {
    SubsetSize(small.Keys, large.Keys);
  }

  lemma {:induction false} SubsetSize<T>(small: set<T>, large: set<T>)
    requires small <= large
    ensures |small| <= |large|
    decreases |small|
  {
    if x :| x in small { SubsetSize(small - {x}, large - {x}); }
  }

  lemma RemovalShrinks<K, V>(m: map<K, V>, key: K)
    requires key in m
    ensures |m - {key}| == |m| - 1
  {
  }

  lemma InsertionSize<K, V>(m: map<K, V>, key: K, value: V)
    ensures |m[key := value]| <= |m| + 1
    ensures key in m ==> |m[key := value]| == |m|
  {
  }
}
