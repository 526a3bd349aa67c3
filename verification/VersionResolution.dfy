/**
 Resolving which agent version a run gets: candidates in repository order, each judged by policy under
 the authority its approved manifest and the deployment grant together.
 */
module VersionResolution {
  import opened Base
  import opened Constraints

  datatype Selectable = Approved | Deprecated | Unselectable

  datatype Mode = Automatic | Pinned | RolledBack

  datatype Candidate = Candidate(agentTenant: nat, agent: nat, versionTenant: nat, versionAgent: nat, version: nat,
                                 approvalVersion: nat, approves: bool, digest: string, state: Selectable, limits: Fields)

  datatype Action = Create | Pin | Rollback

  datatype Answer = Answer(allow: bool, policyDigest: string, policyVersion: int, constraints: Option<Fields>)

  /** The policy's answer for an action on a candidate under an authority; None is an error or invalid evidence. */
  type Policy = (Action, Candidate, Fields) -> Option<Answer>

  /** An empty `wanted` asks for automatic selection. */
  datatype Command = Command(tenant: nat, agent: nat, wanted: string, requested: Fields, deployment: Fields)

  datatype Resolution = Resolution(version: nat, digest: string, policyDigest: string, policyVersion: int, mode: Mode, constraints: Fields)

  datatype Failure = NotFound | CrossedBoundary | Ineligible | InvalidAuthority | Unavailable | Forbidden | NonePermitted

  predicate InScope(c: Command, x: Candidate) {
    x.agentTenant == c.tenant && x.agent == c.agent && x.versionTenant == c.tenant && x.versionAgent == c.agent &&
    x.approvalVersion == x.version && x.approves
  }

  predicate Eligible(c: Command, x: Candidate, count: nat) {
    if c.wanted == "" then x.state == Approved
    else count == 1 && x.digest == c.wanted && x.state != Unselectable
  }

  ghost function Authority(c: Command, x: Candidate): Option<Fields> {
    if ValidLimits(x.limits) then Intersect(Combined(c.deployment, x.limits), x.limits) else None
  }

  function ModeOf(c: Command, x: Candidate): Mode {
    if c.wanted == "" then Automatic else if x.state == Deprecated then RolledBack else Pinned
  }

  function SelectionAction(x: Candidate): Action { if x.state == Deprecated then Rollback else Pin }

  /** In the command's scope, selectable, and with a usable authority. */
  ghost predicate Offered(c: Command, x: Candidate, count: nat) {
    InScope(c, x) && Eligible(c, x, count) && Authority(c, x).Some?
  }

  /** A candidate that automatic selection skips: properly offered, and denied by policy. */
  ghost predicate PassedOver(c: Command, policy: Policy, x: Candidate, count: nat) {
    && Offered(c, x, count)
    && policy(Create, x, Authority(c, x).value).Some? && !policy(Create, x, Authority(c, x).value).value.allow
  }

  /** The resolution is this candidate's: allowed, under unchanged policy if chosen by hand, and within all its bounds. */
  ghost predicate Resolves(c: Command, policy: Policy, x: Candidate, count: nat, r: Resolution) {
    && Offered(c, x, count)
    && r.version == x.version && r.digest == x.digest && r.mode == ModeOf(c, x)
    && (var a := Authority(c, x).value;
        var answer := policy(Create, x, a);
        && a != map[] && answer.Some? && answer.value.allow
        && answer.value.policyDigest == r.policyDigest && answer.value.policyVersion == r.policyVersion
        && Constraints.Resolve(a, c.requested, answer.value.constraints) == Some(r.constraints)
        && (c.wanted != "" ==>
              var choice := policy(SelectionAction(x), x, a);
              choice.Some? && choice.value.allow && choice.value.policyDigest == r.policyDigest && choice.value.policyVersion == r.policyVersion))
  }

  /** In the command's own terms: an approved version of this tenant's agent, the wanted one if one was wanted. */
  lemma ResolvedIsEligible(c: Command, policy: Policy, x: Candidate, count: nat, r: Resolution)
    requires Resolves(c, policy, x, count, r)
    ensures x.agentTenant == c.tenant && x.versionTenant == c.tenant && x.agent == c.agent && x.versionAgent == c.agent
    ensures x.approvalVersion == x.version == r.version && x.approves
    ensures c.wanted == "" ==> x.state == Approved && r.mode == Automatic
    ensures c.wanted != "" ==> count == 1 && r.digest == c.wanted
    ensures c.wanted != "" ==>
              if x.state == Deprecated then r.mode == RolledBack && policy(Rollback, x, Authority(c, x).value).Some? &&
                                            policy(Rollback, x, Authority(c, x).value).value.allow
              else x.state == Approved && r.mode == Pinned && policy(Pin, x, Authority(c, x).value).Some? &&
                   policy(Pin, x, Authority(c, x).value).value.allow
  {
  }

  /** A run is never granted more than the deployment, the approved manifest, the caller or the policy allows. */
  lemma ResolvedWithinBounds(c: Command, policy: Policy, x: Candidate, count: nat, r: Resolution)
    requires Resolves(c, policy, x, count, r)
    ensures Tighter(Obj(r.constraints), Obj(c.deployment)) && Tighter(Obj(r.constraints), Obj(x.limits))
    ensures Tighter(Obj(r.constraints), Obj(c.requested))
    ensures r.constraints.Keys == c.deployment.Keys + x.limits.Keys
  {
    var a := Authority(c, x).value;
    var p := policy(Create, x, a).value.constraints.value;
    ApprovedIsStrictest(c.deployment, x.limits);
    ResolveIsMeet(a, c.requested, p, Obj(a));
    TighterTransitive(Obj(r.constraints), Obj(a), Obj(c.deployment));
    TighterTransitive(Obj(r.constraints), Obj(a), Obj(x.limits));
  }

  /** The loop gets to candidate i: all before it were passed over, which only automatic selection does. */
  ghost predicate Reached(c: Command, policy: Policy, candidates: seq<Candidate>, i: int) {
    0 <= i < |candidates| && forall j :: 0 <= j < i ==> c.wanted == "" && PassedOver(c, policy, candidates[j], |candidates|)
  }

  /** A wanted version that policy lets the caller neither select nor invoke. */
  ghost predicate Refused(c: Command, policy: Policy, x: Candidate, count: nat) {
    && Offered(c, x, count) && c.wanted != ""
    && var choice, answer := policy(SelectionAction(x), x, Authority(c, x).value), policy(Create, x, Authority(c, x).value);
    choice.Some? && (!choice.value.allow || (answer.Some? && !answer.value.allow))
  }

  /** The candidate loop: the first candidate policy allows wins, and every one before it was denied. */
  method Resolve(c: Command, candidates: seq<Candidate>, policy: Policy) returns (r: Result<Resolution, Failure>)
    ensures candidates == [] <==> r == Err(NotFound)
    ensures r == Err(NonePermitted) <==>
            candidates != [] && c.wanted == "" && forall j :: 0 <= j < |candidates| ==> PassedOver(c, policy, candidates[j], |candidates|)
    ensures r.Ok? ==> exists i :: Reached(c, policy, candidates, i) && Resolves(c, policy, candidates[i], |candidates|, r.value)
    ensures (exists i, s :: Reached(c, policy, candidates, i) && Resolves(c, policy, candidates[i], |candidates|, s)) ==> r.Ok?
    ensures r == Err(CrossedBoundary) <==> exists i :: Reached(c, policy, candidates, i) && !InScope(c, candidates[i])
    ensures r == Err(Ineligible) <==>
            exists i :: Reached(c, policy, candidates, i) && InScope(c, candidates[i]) && !Eligible(c, candidates[i], |candidates|)
    ensures r == Err(Forbidden) <==> exists i :: Reached(c, policy, candidates, i) && Refused(c, policy, candidates[i], |candidates|)
  {
    if |candidates| == 0 { return Err(NotFound); }
    for i := 0 to |candidates|
      invariant i > 0 ==> c.wanted == ""
      invariant forall j :: 0 <= j < i ==> PassedOver(c, policy, candidates[j], |candidates|)
    {
      var x := candidates[i];
      if !InScope(c, x) { return Err(CrossedBoundary); }
      if !Eligible(c, x, |candidates|) { return Err(Ineligible); }
      var authority := ApprovedAuthority(c.deployment, x.limits);
      if authority.None? { return Err(InvalidAuthority); }
      var choice := None;
      if c.wanted != "" {
        choice := policy(SelectionAction(x), x, authority.value);
        if choice.None? { return Err(Unavailable); }
        if !choice.value.allow { return Err(Forbidden); }
      }
      var answer := policy(Create, x, authority.value);
      if answer.None? { return Err(Unavailable); }
      if !answer.value.allow {
        if c.wanted != "" { return Err(Forbidden); }
        continue;
      }
      if authority.value == map[] { return Err(Unavailable); }
      var resolved := Constraints.Resolve(authority.value, c.requested, answer.value.constraints);
      if resolved.None? { return Err(Unavailable); }
      if c.wanted != "" && (choice.value.policyDigest != answer.value.policyDigest || choice.value.policyVersion != answer.value.policyVersion) {
        return Err(Unavailable);
      }
      var found := Resolution(x.version, x.digest, answer.value.policyDigest, answer.value.policyVersion, ModeOf(c, x), resolved.value);
      assert Resolves(c, policy, candidates[i], |candidates|, found);
      return Ok(found);
    }
    r := Err(NonePermitted);
  }
}
