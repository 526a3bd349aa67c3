/**
 Four-eyes approvals: the value type and its transitions, and the three append-only tables it is
 reconstructed from. The zero identifier is 0.
 */
module GovernanceApproval {
  import opened Base
  import Normalize

  datatype Action = TrustRootRotation | GlobalRevocationChange | PolicyBypass | PolicyRollback | EmergencyExpansion | PrivilegedAgentClass

  /** The digest binds the activation it approves: channel, target and the policy epoch it replaces. */
  datatype Digest = ActivationDigest(channel: string, target: string, epoch: int) | OtherDigest(text: string)

  datatype State = Pending | Approved | Rejected | Consumed | Expired

  datatype Approval = Approval(id: nat, requester: nat, action: Action, digest: Digest, state: State, approver: nat,
                               reference: string, requestedAt: int, expiresAt: int,
                               decidedAt: Option<int>, consumedAt: Option<int>)

  predicate FourEyes(a: Approval) {
    a.approver != 0 && a.approver != a.requester && a.decidedAt.Some? && a.reference != ""
  }

  predicate Undecided(a: Approval) {
    a.approver == 0 && a.decidedAt.None? && a.consumedAt.None? && a.reference == ""
  }

  predicate ValidState(a: Approval) {
    match a.state
    case Pending => Undecided(a)
    case Approved => FourEyes(a) && a.consumedAt.None?
    case Rejected => FourEyes(a) && a.consumedAt.None?
    case Consumed => FourEyes(a) && a.consumedAt.Some? && a.decidedAt.value <= a.consumedAt.value
    case Expired => Undecided(a)
  }

  predicate ValidApproval(a: Approval) {
    a.id != 0 && a.requester != 0 && a.expiresAt > a.requestedAt && ValidState(a)
  }

  /** What was asked for, and by whom. */
  predicate SameRequest(a: Approval, b: Approval) {
    && a.id == b.id && a.requester == b.requester && a.action == b.action && a.digest == b.digest
    && a.requestedAt == b.requestedAt && a.expiresAt == b.expiresAt
  }

  function Decide(a: Approval, approver: nat, approved: bool, reference: string, at: int): (r: Option<Approval>)
    ensures r.Some? ==> ValidApproval(r.value) && r.value.approver != a.requester && a.state == Pending
    ensures r.Some? ==> (r.value.state == Approved <==> approved) && (r.value.state == Rejected <==> !approved)
    ensures r.Some? ==> r.value.approver == approver && r.value.reference == reference && r.value.decidedAt == Some(at)
    ensures r.Some? ==> SameRequest(r.value, a)
    ensures r.Some? ==> a.requestedAt <= at < a.expiresAt
  {
    if !ValidApproval(a) || a.state != Pending || approver == 0 || approver == a.requester || Normalize.Blank(reference) ||
       |reference| > 512 || at < a.requestedAt || at >= a.expiresAt
    then None
    else Some(a.(state := if approved then Approved else Rejected, approver := approver, reference := reference, decidedAt := Some(at)))
  }

  function Consume(a: Approval, digest: Digest, at: int): (r: Option<Approval>)
    ensures r.Some? ==> ValidApproval(r.value) && a.state == Approved && digest == a.digest && FourEyes(a)
    ensures r.Some? ==> r.value.state == Consumed && r.value.consumedAt == Some(at) && SameRequest(r.value, a)
    ensures r.Some? ==> r.value.approver == a.approver && r.value.decidedAt == a.decidedAt && r.value.reference == a.reference
    ensures r.Some? ==> a.decidedAt.value <= at < a.expiresAt
  {
    if !ValidApproval(a) || a.state != Approved || digest != a.digest || at < a.decidedAt.value || at >= a.expiresAt then None
    else Some(a.(state := Consumed, consumedAt := Some(at)))
  }

  function EffectiveState(a: Approval, at: int): State {
    if a.state == Pending && at >= a.expiresAt then Expired else a.state
  }

  /** An approval reads as expired exactly when no one can decide it any more. */
  lemma ExpiredIffUndecidable(a: Approval, t: int)
    requires ValidApproval(a) && a.state == Pending
    ensures EffectiveState(a, t) == Expired <==>
            forall approver, approved, reference, at :: at >= t ==> Decide(a, approver, approved, reference, at).None?
  {
    if t < a.expiresAt {
      var at := if t < a.requestedAt then a.requestedAt else t;
      assert !Normalize.Blank("x") by { assert !Normalize.IsSpace("x"[0]); }
      assert Decide(a, a.requester + 1, true, "x", at).Some?;
    }
  }

  // ---- The append-only tables ------------------------------------------------------------------

  datatype Request = Request(requester: nat, action: Action, digest: Digest, requestedAt: int, expiresAt: int)
  datatype DecisionRow = DecisionRow(approver: nat, approved: bool, reference: string, decidedAt: int)
  datatype ConsumptionRow = ConsumptionRow(digest: Digest, consumedAt: int)

  datatype Store = Store(requests: map<nat, Request>, decisions: map<nat, DecisionRow>, consumptions: map<nat, ConsumptionRow>)

  const EmptyStore := Store(map[], map[], map[])

  /** The left joins of the three tables, read into one value. */
  function Join(s: Store, id: nat): Approval
    requires id in s.requests
  {
    var r := s.requests[id];
    var pending := Approval(id, r.requester, r.action, r.digest, Pending, 0, "", r.requestedAt, r.expiresAt, None, None);
    var decided :=
      if id !in s.decisions then pending
      else
        var d := s.decisions[id];
        pending.(state := if d.approved then Approved else Rejected, approver := d.approver, reference := d.reference,
                 decidedAt := Some(d.decidedAt));
    if id !in s.consumptions then decided
    else decided.(state := Consumed, consumedAt := Some(s.consumptions[id].consumedAt))
  }

  /** readGovernanceApproval: missing rows and rows that fail validation are errors. */
  function Read(s: Store, id: nat): Option<Approval> {
    if id in s.requests && ValidApproval(Join(s, id)) then Some(Join(s, id)) else None
  }

  function Create(s: Store, a: Approval): Option<Store> {
    if a.state != Pending || !ValidApproval(a) || a.id in s.requests then None
    else Some(s.(requests := s.requests[a.id := Request(a.requester, a.action, a.digest, a.requestedAt, a.expiresAt)]))
  }

  /** The insert selects its request row again and re-checks requester and expiry; keys and references are unique. */
  function RecordDecision(s: Store, a: Approval): Option<Store> {
    if (a.state != Approved && a.state != Rejected) || !ValidApproval(a) || a.id !in s.requests || a.id in s.decisions ||
       |a.reference| > 512 || s.requests[a.id].requester == a.approver || s.requests[a.id].expiresAt <= a.decidedAt.value ||
       (exists other :: other in s.decisions && s.decisions[other].reference == a.reference)
    then None
    else Some(s.(decisions := s.decisions[a.id := DecisionRow(a.approver, a.state == Approved, a.reference, a.decidedAt.value)]))
  }

  function ConsumeApproval(s: Store, id: nat, digest: Digest, at: int): Option<Store> {
    var a := Read(s, id);
    if a.None? || Consume(a.value, digest, at).None? || id in s.consumptions then None
    else Some(s.(consumptions := s.consumptions[id := ConsumptionRow(digest, at)]))
  }

  /** The tables are append-only. */
  ghost predicate Extends(s: Store, s': Store) {
    && (forall id :: id in s.requests ==> id in s'.requests && s'.requests[id] == s.requests[id])
    && (forall id :: id in s.decisions ==> id in s'.decisions && s'.decisions[id] == s.decisions[id])
    && (forall id :: id in s.consumptions ==> id in s'.consumptions && s'.consumptions[id] == s.consumptions[id])
  }

  /** All the tables hold about one approval. */
  ghost predicate ApprovalInv(s: Store, x: nat) {
    && (x in s.decisions ==> x in s.requests) && (x in s.consumptions ==> x in s.decisions)
    && (x in s.requests ==> ValidApproval(Join(s, x))) && (x in s.consumptions ==> ProperlyConsumed(s, x))
  }

  ghost predicate Inv(s: Store) {
    forall x :: ApprovalInv(s, x)
  }

  /** Approved by someone else, decided before use, used before expiry, for the digest that was requested. */
  ghost predicate ProperlyConsumed(s: Store, id: nat) {
    && id in s.requests && id in s.decisions && id in s.consumptions
    && s.decisions[id].approved && s.decisions[id].approver != s.requests[id].requester
    && s.decisions[id].decidedAt <= s.consumptions[id].consumedAt < s.requests[id].expiresAt
    && s.consumptions[id].digest == s.requests[id].digest
  }

  /** A row added for one approval leaves every other approval reading as before. */
  ghost predicate SameFor(s: Store, s': Store, x: nat) {
    && (x in s.requests <==> x in s'.requests) && (x in s.requests ==> s'.requests[x] == s.requests[x])
    && (x in s.decisions <==> x in s'.decisions) && (x in s.decisions ==> s'.decisions[x] == s.decisions[x])
    && (x in s.consumptions <==> x in s'.consumptions) && (x in s.consumptions ==> s'.consumptions[x] == s.consumptions[x])
  }

  lemma OtherUnchanged(s: Store, s': Store, x: nat)
    requires ApprovalInv(s, x) && SameFor(s, s', x)
    ensures ApprovalInv(s', x) && Read(s', x) == Read(s, x)
  {
    if x in s.requests { assert Join(s', x) == Join(s, x); }
  }

  /** A step that touches one approval keeps the invariant if it keeps it there. */
  lemma OneChangeKeepsInv(s: Store, s': Store, id: nat)
    requires Inv(s) && ApprovalInv(s', id) && forall x :: x != id ==> SameFor(s, s', x)
    ensures Inv(s')
  {
    forall x ensures ApprovalInv(s', x) {
      if x != id {
        assert ApprovalInv(s, x);
        OtherUnchanged(s, s', x);
      }
    }
  }

  lemma CreateKeepsInv(s: Store, a: Approval)
    requires Inv(s) && Create(s, a).Some?
    ensures Inv(Create(s, a).value) && Extends(s, Create(s, a).value) && Read(Create(s, a).value, a.id) == Some(a)
  {
    var s' := Create(s, a).value;
    assert ApprovalInv(s, a.id);
    assert Join(s', a.id) == a;
    OneChangeKeepsInv(s, s', a.id);
  }

  lemma RecordKeepsInv(s: Store, a: Approval)
    requires Inv(s) && RecordDecision(s, a).Some?
    ensures Inv(RecordDecision(s, a).value) && Extends(s, RecordDecision(s, a).value)
  {
    var s' := RecordDecision(s, a).value;
    assert ApprovalInv(s, a.id);
    assert Join(s', a.id) == Join(s, a.id).(state := a.state, approver := a.approver, reference := a.reference, decidedAt := a.decidedAt);
    OneChangeKeepsInv(s, s', a.id);
  }

  lemma ConsumeKeepsInv(s: Store, id: nat, digest: Digest, at: int)
    requires Inv(s) && ConsumeApproval(s, id, digest, at).Some?
    ensures Inv(ConsumeApproval(s, id, digest, at).value) && Extends(s, ConsumeApproval(s, id, digest, at).value)
    ensures id !in s.consumptions && ProperlyConsumed(ConsumeApproval(s, id, digest, at).value, id)
  {
    var s' := ConsumeApproval(s, id, digest, at).value;
    assert ApprovalInv(s, id);
    assert Join(s', id) == Consume(Read(s, id).value, digest, at).value;
    OneChangeKeepsInv(s, s', id);
  }

  /** Tables of any content: exactly these rows read back as an approval, whoever wrote them. */
  lemma ReadableIff(s: Store, id: nat)
    requires id in s.requests
    ensures Read(s, id).Some? <==>
            && id != 0 && s.requests[id].requester != 0 && s.requests[id].requestedAt < s.requests[id].expiresAt
            && (id in s.decisions ==>
                  s.decisions[id].approver != 0 && s.decisions[id].approver != s.requests[id].requester && s.decisions[id].reference != "")
            && (id in s.consumptions ==> id in s.decisions && s.decisions[id].decidedAt <= s.consumptions[id].consumedAt)
  {
  }

  /** A stored request can be decided exactly while undecided, by someone else, with a reference, inside its window. */
  lemma DecidableIff(s: Store, id: nat, approver: nat, approved: bool, reference: string, at: int)
    requires Inv(s) && id in s.requests
    ensures Decide(Join(s, id), approver, approved, reference, at).Some? <==>
            && id !in s.decisions && approver != 0 && approver != s.requests[id].requester
            && !Normalize.Blank(reference) && |reference| <= 512 && s.requests[id].requestedAt <= at < s.requests[id].expiresAt
  {
    assert ApprovalInv(s, id);
  }

  /** Whatever value is presented, its row is inserted exactly when it is a decision the stored request still admits. */
  lemma RecordableIff(s: Store, a: Approval)
    ensures RecordDecision(s, a).Some? <==>
            && (a.state == Approved || a.state == Rejected) && a.consumedAt.None? && a.decidedAt.Some?
            && a.id != 0 && a.requester != 0 && a.requestedAt < a.expiresAt && a.approver != 0 && a.approver != a.requester
            && 0 < |a.reference| <= 512 && (forall other :: other in s.decisions ==> s.decisions[other].reference != a.reference)
            && a.id in s.requests && a.id !in s.decisions && a.approver != s.requests[a.id].requester
            && a.decidedAt.value < s.requests[a.id].expiresAt
  {
  }

  /** Recording a decision and reading it back is the value type's own decision. */
  lemma DecisionReadsBack(s: Store, id: nat, approver: nat, approved: bool, reference: string, at: int)
    requires Inv(s) && id in s.requests
    ensures Read(s, id).Some?
    ensures var d := Decide(Read(s, id).value, approver, approved, reference, at);
            d.Some? ==>
              && (RecordDecision(s, d.value).Some? <==> forall x :: x in s.decisions ==> s.decisions[x].reference != reference)
              && (RecordDecision(s, d.value).Some? ==> Read(RecordDecision(s, d.value).value, id) == d)
  {
    assert ApprovalInv(s, id);
  }

  /** Consuming in the tables succeeds exactly when the value type allows it, and reads back as its result. */
  lemma ConsumptionReadsBack(s: Store, id: nat, digest: Digest, at: int)
    requires Inv(s) && id in s.requests
    ensures Read(s, id).Some?
    ensures var c := Consume(Read(s, id).value, digest, at);
            && (ConsumeApproval(s, id, digest, at).Some? <==> c.Some?)
            && (c.Some? ==> Read(ConsumeApproval(s, id, digest, at).value, id) == c)
  {
    assert ApprovalInv(s, id);
  }

  /** The store in which this decision on an approval has just been recorded. */
  ghost predicate Records(s: Store, id: nat, approver: nat, approved: bool, reference: string, at: int, s': Store) {
    && Read(s, id).Some? && Decide(Read(s, id).value, approver, approved, reference, at).Some?
    && RecordDecision(s, Decide(Read(s, id).value, approver, approved, reference, at).value) == Some(s')
  }

  /** Once a refusal is recorded, the approval is never consumed, for any digest, at any time, whatever is added later. */
  lemma RefusedIsNeverConsumed(s: Store, id: nat, approver: nat, reference: string, at: int, recorded: Store, later: Store, digest: Digest, when: int)
    requires Records(s, id, approver, false, reference, at, recorded) && Extends(recorded, later)
    ensures ConsumeApproval(later, id, digest, when) == None
  {
  }

  /** Once an approval is recorded and not yet used, it is consumed exactly for what was requested, from its decision to its expiry. */
  lemma ApprovedIsConsumableIff(s: Store, id: nat, approver: nat, reference: string, at: int, recorded: Store, later: Store, digest: Digest, when: int)
    requires Records(s, id, approver, true, reference, at, recorded) && Extends(recorded, later) && Inv(later) && id !in later.consumptions
    ensures ConsumeApproval(later, id, digest, when).Some? <==>
            digest == s.requests[id].digest && at <= when < s.requests[id].expiresAt
  {
    assert ApprovalInv(later, id);
  }

  /** No approval is consumed twice, for any digest and at any time. */
  lemma ConsumedOnce(s: Store, id: nat, digest: Digest, at: int)
    requires Inv(s) && id in s.consumptions
    ensures ConsumeApproval(s, id, digest, at) == None
    ensures ProperlyConsumed(s, id)
  {
    assert ApprovalInv(s, id);
  }

  // ---- The repository --------------------------------------------------------------------------

  class ApprovalRepository {
    var requests: map<nat, Request>
    var decisions: map<nat, DecisionRow>
    var consumptions: map<nat, ConsumptionRow>

    function View(): Store
      reads this
    {
      Store(requests, decisions, consumptions)
    }

    ghost predicate Valid()
      reads this
    {
      Inv(View())
    }

    constructor ()
      ensures Valid() && View() == EmptyStore
    {
      requests, decisions, consumptions := map[], map[], map[];
    }

    method CreateGovernanceApproval(a: Approval) returns (ok: bool)
      requires Valid()
      modifies this
      ensures Valid() && ok == Create(old(View()), a).Some?
      ensures View() == if ok then Create(old(View()), a).value else old(View())
      ensures ok ==> Read(View(), a.id) == Some(a)
    {
      ok := a.state == Pending && ValidApproval(a) && a.id !in requests;
      if ok {
        CreateKeepsInv(View(), a);
        requests := requests[a.id := Request(a.requester, a.action, a.digest, a.requestedAt, a.expiresAt)];
      }
    }

    /** Fills the approval field by field from the joined row; stored rows never fail validation. */
    method ReadGovernanceApproval(id: nat) returns (found: Option<Approval>)
      requires Valid()
      ensures found == Read(View(), id) && (found.Some? <==> id in requests)
    {
      assert ApprovalInv(View(), id);
      if id !in requests { return None; }
      var r := requests[id];
      var a := Approval(id, r.requester, r.action, r.digest, Pending, 0, "", r.requestedAt, r.expiresAt, None, None);
      if id in decisions {
        a := a.(state := Rejected, decidedAt := Some(decisions[id].decidedAt));
        if decisions[id].approved { a := a.(state := Approved); }
        a := a.(reference := decisions[id].reference, approver := decisions[id].approver);
      }
      if id in consumptions { a := a.(state := Consumed, consumedAt := Some(consumptions[id].consumedAt)); }
      found := Some(a);
    }

    method RecordGovernanceApprovalDecision(a: Approval) returns (ok: bool)
      requires Valid()
      modifies this
      ensures Valid() && ok == RecordDecision(old(View()), a).Some?
      ensures View() == if ok then RecordDecision(old(View()), a).value else old(View())
    {
      if a.state != Approved && a.state != Rejected { return false; }
      if !ValidApproval(a) || |a.reference| > 512 { return false; }
      if a.id !in requests || requests[a.id].requester == a.approver || requests[a.id].expiresAt <= a.decidedAt.value { return false; }
      if a.id in decisions || exists other :: other in decisions && decisions[other].reference == a.reference { return false; }
      RecordKeepsInv(View(), a);
      decisions := decisions[a.id := DecisionRow(a.approver, a.state == Approved, a.reference, a.decidedAt.value)];
      ok := true;
    }

    method ConsumeGovernanceApproval(id: nat, digest: Digest, at: int) returns (consumed: Option<Approval>)
      requires Valid()
      modifies this
      ensures Valid() && requests == old(requests) && decisions == old(decisions)
      ensures consumed.Some? <==> ConsumeApproval(old(View()), id, digest, at).Some?
      ensures View() == if consumed.Some? then ConsumeApproval(old(View()), id, digest, at).value else old(View())
      ensures consumed.Some? ==> id !in old(consumptions) && ProperlyConsumed(View(), id) && Read(View(), id) == consumed
    {
      var a := ReadGovernanceApproval(id);
      if a.None? { return None; }
      consumed := Consume(a.value, digest, at);
      ConsumptionReadsBack(View(), id, digest, at);
      if consumed.Some? {
        ConsumeKeepsInv(View(), id, digest, at);
        consumptions := consumptions[id := ConsumptionRow(digest, at)];
      }
    }
  }
}
