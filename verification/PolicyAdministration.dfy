/**
 Policy activation of one tenant: signed bundles, the append-only activation history of each channel,
 the approvals consumed by rollbacks, and the replay records committed with them.
 */
module PolicyAdministration {
  import opened Base
  import GA = GovernanceApproval
  import Idem = Idempotency

  /** Bundles are immutable and unique by channel and digest; `signed` is the revision and key it was signed with. */
  datatype Key = Key(channel: string, digest: string)
  datatype Bundle = Bundle(signed: string, validated: bool, validFrom: Option<int>, validUntil: Option<int>)

  /** How a row came to be; an administered row remembers the approval it consumed. */
  datatype Cause = Bootstrapped | Stored | Administered(approval: Option<nat>)

  datatype Activation = Activation(id: nat, digest: string, version: int, actor: nat, at: int, closedAt: Option<int>, cause: Cause)

  /** `history` holds the rows of each channel in the order they were inserted; `ids` the identifiers drawn so far. */
  datatype World = World(bundles: map<Key, Bundle>, history: map<string, seq<Activation>>, approvals: GA.Store,
                         policyEpoch: nat, idempotency: Idem.Table, ids: set<nat>)

  const Empty := World(map[], map[], GA.EmptyStore, 0, Idem.Empty, {})

  function Rows(w: World, channel: string): seq<Activation> {
    if channel in w.history then w.history[channel] else []
  }

  // ---- Queries ---------------------------------------------------------------------------------

  function FirstOpen(h: seq<Activation>): Option<Activation>
    decreases |h|
  {
    if h == [] then None else if h[0].closedAt.None? then Some(h[0]) else FirstOpen(h[1..])
  }

  function MaxVersion(h: seq<Activation>): int
    decreases |h|
  {
    if h == [] then 0 else
      var rest := MaxVersion(h[..|h| - 1]);
      if h[|h| - 1].version > rest then h[|h| - 1].version else rest
  }

  predicate InWindow(b: Bundle, now: int) {
    (b.validFrom.Some? ==> b.validFrom.value <= now) && (b.validUntil.Some? ==> now < b.validUntil.value)
  }

  /** CurrentPolicy: the open row, if its bundle is validated and within its window by the database clock. */
  function Current(w: World, channel: string, now: int): Option<Activation> {
    var open := FirstOpen(Rows(w, channel));
    if open.None? then None else
      var key := Key(channel, open.value.digest);
      if key in w.bundles && w.bundles[key].validated && InWindow(w.bundles[key], now) then open else None
  }

  // ---- Transactions ----------------------------------------------------------------------------

  /** Closing an interval before it began violates a table constraint. */
  predicate CanClose(h: seq<Activation>, at: int) {
    forall i :: 0 <= i < |h| && h[i].closedAt.None? ==> h[i].at <= at
  }

  function Closed(a: Activation, at: int): Activation {
    if a.closedAt.None? then a.(closedAt := Some(at)) else a
  }

  function Appended(h: seq<Activation>, id: nat, digest: string, actor: nat, at: int, cause: Cause): seq<Activation> {
    seq(|h|, i requires 0 <= i < |h| => Closed(h[i], at)) + [Activation(id, digest, MaxVersion(h) + 1, actor, at, None, cause)]
  }

  datatype Operation = Operation(actor: nat, channel: string, resource: string, action: string, key: string, hash: string,
                                 policyDigest: string, policyVersion: int, at: int, now: int,
                                 record: nat, owner: nat, response: Idem.Response)

  datatype Reference = NotRequired | Approval(id: nat) | Unparsed(text: string)

  const Minute := 60_000_000_000
  const Day := 24 * 60 * Minute

  function ReplayRequest(op: Operation): Idem.Request {
    Idem.Request(Idem.Slot(op.actor, op.action + ":" + op.resource, op.key), op.hash, Minute, Day)
  }

  /** The policy that authorised the operation is still the active one. */
  predicate StillAuthorised(w: World, op: Operation) {
    var active := Current(w, op.channel, op.now);
    active.Some? && active.value.digest == op.policyDigest && active.value.version == op.policyVersion
  }

  function Commit(op: Operation, succeeded: bool): Idem.Action {
    Idem.Transact(ReplayRequest(op), op.at, op.record, op.owner, op.response, succeeded)
  }

  /** A rollback's approval: right action, right requester, and consumable for this very activation. */
  function Authorise(s: GA.Store, op: Operation, id: nat): Option<GA.Store> {
    var a := GA.Read(s, id);
    if a.None? || a.value.action != GA.PolicyRollback || a.value.requester != op.actor then None
    else GA.ConsumeApproval(s, id, GA.ActivationDigest(op.channel, op.resource, op.policyVersion), op.at)
  }

  predicate Activated(h: seq<Activation>, digest: string) {
    exists i :: 0 <= i < |h| && h[i].digest == digest
  }

  function Approvals(w: World, op: Operation, reference: Reference): Option<GA.Store> {
    if Activated(Rows(w, op.channel), op.resource) then
      if reference.Approval? then Authorise(w.approvals, op, reference.id) else None
    else if reference.NotRequired? then Some(w.approvals) else None
  }

  /** The mutation of ActivatePolicy; None is any error, which rolls the transaction back. */
  function Mutation(w: World, op: Operation, reference: Reference, id: nat): Option<World> {
    var key := Key(op.channel, op.resource);
    var h := Rows(w, op.channel);
    if key !in w.bundles || !w.bundles[key].validated || !InWindow(w.bundles[key], op.at) then None
    else
      var approvals := Approvals(w, op, reference);
      if approvals.None? || !CanClose(h, op.at) || id in w.ids then None
      else
        var cause := Administered(if reference.Approval? then Some(reference.id) else None);
        Some(w.(history := w.history[op.channel := Appended(h, id, op.resource, op.actor, op.at, cause)],
                approvals := approvals.value, policyEpoch := w.policyEpoch + 1, ids := w.ids + {id}))
  }

  datatype Action =
    | StorePolicy(op: Operation, bundle: Bundle)
    | Bootstrap(channel: string, digest: string, actor: nat, at: int, id: nat)
    | Activate(channel: string, digest: string, actor: nat, at: int, id: nat)
    | ActivatePolicy(op: Operation, reference: Reference, id: nat)
    | CreateApproval(approval: GA.Approval)
    | RecordDecision(approval: GA.Approval)
    | ConsumeElsewhere(approvalId: nat, boundDigest: GA.Digest, at: int)
    | ImportBundle(key: Key, bundle: Bundle)

  /** The mutation of StorePolicy: a bundle stored before must have been signed alike. */
  function StoredBundle(w: World, op: Operation, bundle: Bundle): Option<World> {
    var key := Key(op.channel, op.resource);
    if key !in w.bundles then Some(w.(bundles := w.bundles[key := bundle]))
    else if w.bundles[key].signed == bundle.signed then Some(w) else None
  }

  function Applied(w: World, op: Operation, result: Option<World>): World {
    var commit := Commit(op, op.actor != 0 && StillAuthorised(w, op) && result.Some?);
    if Idem.Enabled(w.idempotency, commit) && result.Some?
    then result.value.(idempotency := Idem.Step(w.idempotency, commit))
    else w
  }

  function WithApprovals(w: World, s: Option<GA.Store>): World {
    if s.Some? then w.(approvals := s.value) else w
  }

  function Step(w: World, a: Action): World {
    match a
    case StorePolicy(op, bundle) =>
      Applied(w, op, StoredBundle(w, op, bundle))
    case Bootstrap(channel, digest, actor, at, id) =>
      if Key(channel, digest) !in w.bundles || Rows(w, channel) != [] || id in w.ids then w
      else w.(history := w.history[channel := Appended([], id, digest, actor, at, Bootstrapped)], ids := w.ids + {id})
    case Activate(channel, digest, actor, at, id) =>
      var key := Key(channel, digest);
      if key !in w.bundles || !w.bundles[key].validated || !InWindow(w.bundles[key], at) || !CanClose(Rows(w, channel), at) || id in w.ids
      then w
      else w.(history := w.history[channel := Appended(Rows(w, channel), id, digest, actor, at, Stored)], ids := w.ids + {id})
    case ActivatePolicy(op, reference, id) => Applied(w, op, Mutation(w, op, reference, id))
    case CreateApproval(approval) => WithApprovals(w, GA.Create(w.approvals, approval))
    case RecordDecision(approval) => WithApprovals(w, GA.RecordDecision(w.approvals, approval))
    case ConsumeElsewhere(id, digest, at) => WithApprovals(w, GA.ConsumeApproval(w.approvals, id, digest, at))
    case ImportBundle(key, bundle) => if key in w.bundles then w else w.(bundles := w.bundles[key := bundle])
  }

  function Run(w: World, actions: seq<Action>): World
    decreases |actions|
  {
    if actions == [] then w else Run(Step(w, actions[0]), actions[1..])
  }

  // ---- Invariant -------------------------------------------------------------------------------

  /** Versions count up from one, and each interval ends where the next begins; only the last is open. */
  ghost predicate Chain(h: seq<Activation>) {
    && (forall i :: 0 <= i < |h| ==> h[i].version == i + 1)
    && (forall i :: 0 <= i < |h| ==> (h[i].closedAt.None? <==> i == |h| - 1))
    && (forall i, j :: 0 <= i && j == i + 1 && j < |h| ==> h[i].closedAt == Some(h[j].at) && h[i].at <= h[j].at)
  }

  /** The approval was decided by someone else, unexpired, requested by the actor, and bound to the replaced version. */
  ghost predicate Approves(s: GA.Store, id: nat, channel: string, row: Activation) {
    && GA.ProperlyConsumed(s, id)
    && s.requests[id].action == GA.PolicyRollback
    && s.requests[id].requester == row.actor
    && s.requests[id].digest == GA.ActivationDigest(channel, row.digest, row.version - 1)
    && s.consumptions[id].consumedAt == row.at
  }

  ghost predicate Justified(s: GA.Store, channel: string, h: seq<Activation>, i: int)
    requires 0 <= i < |h|
  {
    h[i].cause.Administered? ==>
      if Activated(h[..i], h[i].digest) then h[i].cause.approval.Some? && Approves(s, h[i].cause.approval.value, channel, h[i])
      else h[i].cause.approval.None?
  }

  ghost predicate ChannelInv(s: GA.Store, channel: string, h: seq<Activation>) {
    h != [] && Chain(h) && forall i :: 0 <= i < |h| ==> Justified(s, channel, h, i)
  }

  ghost predicate Inv(w: World) {
    GA.Inv(w.approvals) && forall c :: c in w.history ==> ChannelInv(w.approvals, c, w.history[c])
  }

  lemma {:induction false} FirstOpenIsLast(h: seq<Activation>)
    requires forall i :: 0 <= i < |h| ==> (h[i].closedAt.None? <==> i == |h| - 1)
    ensures FirstOpen(h) == if h == [] then None else Some(h[|h| - 1])
    decreases |h|
  {
    if |h| > 1 { FirstOpenIsLast(h[1..]); }
  }

  lemma {:induction false} MaxVersionIsLength(h: seq<Activation>)
    requires forall i :: 0 <= i < |h| ==> h[i].version == i + 1
    ensures MaxVersion(h) == |h|
    decreases |h|
  {
    if h != [] { MaxVersionIsLength(h[..|h| - 1]); }
  }

  lemma AppendKeepsChain(h: seq<Activation>, id: nat, digest: string, actor: nat, at: int, cause: Cause)
    requires Chain(h) && CanClose(h, at)
    ensures Chain(Appended(h, id, digest, actor, at, cause))
    ensures |Appended(h, id, digest, actor, at, cause)| == |h| + 1
    ensures forall i :: 0 <= i < |h| ==> Appended(h, id, digest, actor, at, cause)[i] == Closed(h[i], at)
  {
    MaxVersionIsLength(h);
  }

  lemma SameDigests(h: seq<Activation>, g: seq<Activation>, digest: string)
    requires |h| == |g| && forall i :: 0 <= i < |h| ==> h[i].digest == g[i].digest
    ensures Activated(h, digest) <==> Activated(g, digest)
  {
  }

  lemma JustifiedMonotone(s: GA.Store, s': GA.Store, channel: string, h: seq<Activation>, g: seq<Activation>, i: int)
    requires 0 <= i < |h| <= |g| && Justified(s, channel, h, i) && GA.Extends(s, s')
    requires forall j :: 0 <= j <= i ==> g[j] == h[j].(closedAt := g[j].closedAt)
    ensures Justified(s', channel, g, i)
  {
  }

  lemma ApprovalsGrowKeepsInv(w: World, s: GA.Store)
    requires Inv(w) && GA.Inv(s) && GA.Extends(w.approvals, s)
    ensures Inv(w.(approvals := s))
  {
    forall c | c in w.history ensures ChannelInv(s, c, w.history[c]) {
      var h := w.history[c];
      forall i | 0 <= i < |h| ensures Justified(s, c, h, i) { JustifiedMonotone(w.approvals, s, c, h, h, i); }
    }
  }

  lemma AppendKeepsInv(w: World, s: GA.Store, channel: string, id: nat, digest: string, actor: nat, at: int, cause: Cause)
    requires Inv(w) && GA.Inv(s) && GA.Extends(w.approvals, s) && CanClose(Rows(w, channel), at)
    requires var h := Rows(w, channel);
             cause.Administered? ==>
               if Activated(h, digest)
               then cause.approval.Some? && Approves(s, cause.approval.value, channel, Activation(id, digest, |h| + 1, actor, at, None, cause))
               else cause.approval.None?
    ensures Inv(w.(approvals := s, history := w.history[channel := Appended(Rows(w, channel), id, digest, actor, at, cause)]))
  {
    var h := Rows(w, channel);
    AppendKeepsChain(h, id, digest, actor, at, cause);
    assert Chain(h) && forall i :: 0 <= i < |h| ==> Justified(w.approvals, channel, h, i);
    AppendedJustified(w.approvals, s, channel, h, id, digest, actor, at, cause);
    ApprovalsGrowKeepsInv(w, s);
  }

  /** The old rows stay justified, and the new one is by what it consumed. */
  lemma AppendedJustified(s: GA.Store, s': GA.Store, channel: string, h: seq<Activation>, id: nat, digest: string, actor: nat, at: int, cause: Cause)
    requires Chain(h) && GA.Extends(s, s') && forall i :: 0 <= i < |h| ==> Justified(s, channel, h, i)
    requires cause.Administered? ==>
               if Activated(h, digest)
               then cause.approval.Some? && Approves(s', cause.approval.value, channel, Activation(id, digest, |h| + 1, actor, at, None, cause))
               else cause.approval.None?
    ensures var g := Appended(h, id, digest, actor, at, cause); forall i :: 0 <= i < |g| ==> Justified(s', channel, g, i)
  {
    var g := Appended(h, id, digest, actor, at, cause);
    MaxVersionIsLength(h);
    forall i | 0 <= i < |g| ensures Justified(s', channel, g, i) {
      if i < |h| {
        JustifiedMonotone(s, s', channel, h, g, i);
      } else {
        assert g[i] == Activation(id, digest, |h| + 1, actor, at, None, cause);
        SameDigests(h, g[..i], digest);
      }
    }
  }

  lemma AuthoriseApproves(s: GA.Store, op: Operation, id: nat, row: Activation)
    requires GA.Inv(s) && Authorise(s, op, id).Some?
    requires row.digest == op.resource && row.version == op.policyVersion + 1 && row.actor == op.actor && row.at == op.at
    ensures GA.Inv(Authorise(s, op, id).value) && GA.Extends(s, Authorise(s, op, id).value)
    ensures Approves(Authorise(s, op, id).value, id, op.channel, row)
  {
    GA.ConsumeKeepsInv(s, id, GA.ActivationDigest(op.channel, op.resource, op.policyVersion), op.at);
  }

  /** The current policy is always the last row of the channel. */
  lemma CurrentIsLast(w: World, channel: string, now: int)
    requires Inv(w) && Current(w, channel, now).Some?
    ensures channel in w.history && Current(w, channel, now).value == w.history[channel][|w.history[channel]| - 1]
    ensures Current(w, channel, now).value.version == |w.history[channel]|
  {
    FirstOpenIsLast(Rows(w, channel));
  }

  lemma ActivatePolicyKeepsInv(w: World, op: Operation, reference: Reference, id: nat)
    requires Inv(w) && StillAuthorised(w, op) && Mutation(w, op, reference, id).Some?
    ensures Inv(Mutation(w, op, reference, id).value)
  {
    CurrentIsLast(w, op.channel, op.now);
    var cause := Administered(if reference.Approval? then Some(reference.id) else None);
    var s := Approvals(w, op, reference).value;
    if reference.Approval? {
      AuthoriseApproves(w.approvals, op, reference.id,
                        Activation(id, op.resource, |Rows(w, op.channel)| + 1, op.actor, op.at, None, cause));
    }
    AppendKeepsInv(w, s, op.channel, id, op.resource, op.actor, op.at, cause);
  }

  /** Approvals are created, decided and consumed; each step only adds a row. */
  lemma ApprovalStepKeepsInv(w: World, a: Action)
    requires Inv(w) && (a.CreateApproval? || a.RecordDecision? || a.ConsumeElsewhere?) && Step(w, a) != w
    ensures Inv(Step(w, a))
  {
    var s: GA.Store;
    match a {
      case CreateApproval(approval) =>
        s := GA.Create(w.approvals, approval).value;
        GA.CreateKeepsInv(w.approvals, approval);
      case RecordDecision(approval) =>
        s := GA.RecordDecision(w.approvals, approval).value;
        GA.RecordKeepsInv(w.approvals, approval);
      case ConsumeElsewhere(approval, digest, at) =>
        s := GA.ConsumeApproval(w.approvals, approval, digest, at).value;
        GA.ConsumeKeepsInv(w.approvals, approval, digest, at);
    }
    ApprovalsGrowKeepsInv(w, s);
  }

  /** Bundles, replay records, epochs and identifiers play no part in the invariant. */
  lemma InvIsAboutHistory(w: World, w': World)
    requires Inv(w) && w'.history == w.history && w'.approvals == w.approvals
    ensures Inv(w')
  {
  }

  lemma DirectStepKeepsInv(w: World, a: Action)
    requires Inv(w) && (a.Bootstrap? || a.Activate?) && Step(w, a) != w
    ensures Inv(Step(w, a))
  {
    var cause := if a.Bootstrap? then Bootstrapped else Stored;
    AppendKeepsInv(w, w.approvals, a.channel, a.id, a.digest, a.actor, a.at, cause);
    InvIsAboutHistory(w.(history := w.history[a.channel := Appended(Rows(w, a.channel), a.id, a.digest, a.actor, a.at, cause)]), Step(w, a));
  }

  lemma StepKeepsInv(w: World, a: Action)
    requires Inv(w)
    ensures Inv(Step(w, a))
  {
    if Step(w, a) == w {
    } else if a.CreateApproval? || a.RecordDecision? || a.ConsumeElsewhere? {
      ApprovalStepKeepsInv(w, a);
    } else if a.Bootstrap? || a.Activate? {
      DirectStepKeepsInv(w, a);
    } else if a.ActivatePolicy? {
      ActivatePolicyKeepsInv(w, a.op, a.reference, a.id);
      InvIsAboutHistory(Mutation(w, a.op, a.reference, a.id).value, Step(w, a));
    } else {
      InvIsAboutHistory(w, Step(w, a));
    }
  }

  lemma {:induction false} RunKeepsInv(w: World, actions: seq<Action>)
    requires Inv(w)
    ensures Inv(Run(w, actions))
    decreases |actions|
  {
    if actions != [] {
      StepKeepsInv(w, actions[0]);
      RunKeepsInv(Step(w, actions[0]), actions[1..]);
    }
  }

  // ---- Theorems over whole runs ----------------------------------------------------------------

  /** Every channel that was ever activated has exactly one open row; versions are 1..n and intervals tile. */
  lemma ExactlyOneOpen(actions: seq<Action>, channel: string)
    requires channel in Run(Empty, actions).history
    ensures var h := Run(Empty, actions).history[channel];
            && h != [] && Chain(h)
            && (forall i, j :: 0 <= i < |h| && 0 <= j < |h| && h[i].version == h[j].version ==> i == j)
  {
    RunKeepsInv(Empty, actions);
  }

  predicate Covers(a: Activation, t: int) {
    a.at <= t && (a.closedAt.Some? ==> t < a.closedAt.value)
  }

  /** At every instant since the first activation exactly one row was in force. */
  lemma TimelineIsPartition(h: seq<Activation>, t: int) returns (i: nat)
    requires h != [] && Chain(h) && h[0].at <= t
    ensures i < |h| && Covers(h[i], t) && forall j :: 0 <= j < |h| && Covers(h[j], t) ==> j == i
  {
    i := 0;
    while i + 1 < |h| && h[i + 1].at <= t
      invariant i < |h| && h[i].at <= t
      invariant forall j :: 0 <= j < i ==> h[j].closedAt.Some? && h[j].closedAt.value <= t
    {
      i := i + 1;
    }
    LaterRowsStartLater(h, i);
  }

  lemma {:induction false} LaterRowsStartLater(h: seq<Activation>, i: int)
    requires Chain(h) && 0 <= i < |h|
    ensures forall j :: i <= j < |h| ==> h[i].at <= h[j].at
    ensures i + 1 < |h| ==> forall j :: i < j < |h| ==> h[i + 1].at <= h[j].at
    decreases |h| - i
  {
    if i + 1 < |h| { LaterRowsStartLater(h, i + 1); }
  }

  /** An administered activation of a bundle seen before has consumed a proper approval; a first one none. */
  lemma RollbacksAreApproved(actions: seq<Action>, channel: string, i: int)
    requires channel in Run(Empty, actions).history && 0 <= i < |Run(Empty, actions).history[channel]|
    requires Run(Empty, actions).history[channel][i].cause.Administered?
    ensures var w := Run(Empty, actions);
            var row := w.history[channel][i];
            if Activated(w.history[channel][..i], row.digest)
            then row.cause.approval.Some? && Approves(w.approvals, row.cause.approval.value, channel, row)
            else row.cause.approval.None?
  {
    RunKeepsInv(Empty, actions);
    assert Justified(Run(Empty, actions).approvals, channel, Run(Empty, actions).history[channel], i);
  }

  /** No approval authorises two activations, in one channel or in two. */
  lemma ApprovalsAuthoriseOnce(actions: seq<Action>, c: string, i: int, d: string, j: int)
    requires var w := Run(Empty, actions);
             && c in w.history && d in w.history && 0 <= i < |w.history[c]| && 0 <= j < |w.history[d]|
             && w.history[c][i].cause.Administered? && w.history[d][j].cause.Administered?
             && w.history[c][i].cause.approval.Some? && w.history[c][i].cause.approval == w.history[d][j].cause.approval
    ensures c == d && i == j
  {
    RunKeepsInv(Empty, actions);
    RollbacksAreApproved(actions, c, i);
    RollbacksAreApproved(actions, d, j);
  }

  /** `g` is a later state of `h`: rows are only added, and a row only ever changes by being closed. */
  ghost predicate Later(h: seq<Activation>, g: seq<Activation>) {
    && |h| <= |g|
    && (forall i :: 0 <= i < |h| ==> g[i] == h[i] || (h[i].closedAt.None? && g[i].closedAt.Some? && g[i] == h[i].(closedAt := g[i].closedAt)))
    && (|h| == |g| ==> h == g)
  }

  lemma AppendedIsLater(h: seq<Activation>, id: nat, digest: string, actor: nat, at: int, cause: Cause)
    ensures Later(h, Appended(h, id, digest, actor, at, cause))
  {
  }

  lemma StepIsLater(w: World, a: Action, channel: string)
    requires Inv(w)
    ensures Later(Rows(w, channel), Rows(Step(w, a), channel))
  {
    if Rows(Step(w, a), channel) != Rows(w, channel) {
      var h := Rows(w, channel);
      if a.ActivatePolicy? {
        AppendedIsLater(h, a.id, a.op.resource, a.op.actor, a.op.at, Administered(if a.reference.Approval? then Some(a.reference.id) else None));
      } else {
        AppendedIsLater(h, a.id, a.digest, a.actor, a.at, if a.Bootstrap? then Bootstrapped else Stored);
      }
    }
  }

  lemma LaterTransitive(f: seq<Activation>, g: seq<Activation>, h: seq<Activation>)
    requires Later(f, g) && Later(g, h)
    ensures Later(f, h)
  {
  }

  lemma {:induction false} HistoryIsAppendOnly(w: World, actions: seq<Action>, channel: string)
    requires Inv(w)
    ensures Later(Rows(w, channel), Rows(Run(w, actions), channel))
    decreases |actions|
  {
    if actions != [] {
      var next := Step(w, actions[0]);
      StepKeepsInv(w, actions[0]);
      StepIsLater(w, actions[0], channel);
      HistoryIsAppendOnly(next, actions[1..], channel);
      LaterTransitive(Rows(w, channel), Rows(next, channel), Rows(Run(w, actions), channel));
    }
  }

  lemma {:induction false} RunSplits(w: World, before: seq<Action>, after: seq<Action>)
    ensures Run(w, before + after) == Run(Run(w, before), after)
    decreases |before|
  {
    if before == [] {
      assert before + after == after;
    } else {
      assert (before + after)[1..] == before[1..] + after;
      RunSplits(Step(w, before[0]), before[1..], after);
    }
  }

  /**
   No ABA: equal versions at two reads mean one single activation was open throughout, in every state
   between them.
   */
  lemma NoABA(w: World, actions: seq<Action>, channel: string, first: int, second: int, k: int)
    requires Inv(w) && 0 <= k <= |actions|
    requires Current(w, channel, first).Some? && Current(Run(w, actions), channel, second).Some?
    requires Current(w, channel, first).value.version == Current(Run(w, actions), channel, second).value.version
    ensures FirstOpen(Rows(Run(w, actions[..k]), channel)) == Current(w, channel, first)
    ensures Current(w, channel, first) == Current(Run(w, actions), channel, second)
  {
    RunKeepsInv(w, actions);
    RunKeepsInv(w, actions[..k]);
    CurrentIsLast(w, channel, first);
    CurrentIsLast(Run(w, actions), channel, second);
    RowsBetween(w, actions, channel, k);
    FirstOpenIsLast(Rows(w, channel));
  }

  /** A history as long at the end as at the start was the same at every moment in between. */
  lemma RowsBetween(w: World, actions: seq<Action>, channel: string, k: int)
    requires Inv(w) && 0 <= k <= |actions| && |Rows(Run(w, actions), channel)| == |Rows(w, channel)|
    ensures Rows(Run(w, actions[..k]), channel) == Rows(w, channel) == Rows(Run(w, actions), channel)
  {
    var middle := Run(w, actions[..k]);
    assert actions == actions[..k] + actions[k..];
    RunSplits(w, actions[..k], actions[k..]);
    RunKeepsInv(w, actions[..k]);
    HistoryIsAppendOnly(w, actions[..k], channel);
    HistoryIsAppendOnly(middle, actions[k..], channel);
  }

  /** An administrative operation that changes anything does so while the activation that authorised it is still open. */
  lemma CommitsUnderItsAuthority(w: World, actions: seq<Action>, a: Action, authorisedAt: int, k: int)
    requires Inv(w) && (a.ActivatePolicy? || a.StorePolicy?) && 0 <= k <= |actions|
    requires Step(Run(w, actions), a) != Run(w, actions)
    requires var active := Current(w, a.op.channel, authorisedAt);
             active.Some? && active.value.digest == a.op.policyDigest && active.value.version == a.op.policyVersion
    ensures FirstOpen(Rows(Run(w, actions[..k]), a.op.channel)) == Current(w, a.op.channel, authorisedAt)
    ensures FirstOpen(Rows(Run(w, actions), a.op.channel)) == Current(w, a.op.channel, authorisedAt)
  {
    NoABA(w, actions, a.op.channel, authorisedAt, a.op.now, k);
  }

  // ---- Which bundles are ever in force ---------------------------------------------------------

  /** A stored, validated bundle of the channel, within its validity window at that time. */
  predicate Usable(w: World, channel: string, digest: string, t: int) {
    Key(channel, digest) in w.bundles &&
    var b := w.bundles[Key(channel, digest)];
    b.validated && (b.validFrom.Some? ==> b.validFrom.value <= t) && (b.validUntil.Some? ==> t < b.validUntil.value)
  }

  ghost predicate WasUsable(w: World, channel: string, row: Activation) {
    if row.cause.Bootstrapped? then Key(channel, row.digest) in w.bundles else Usable(w, channel, row.digest, row.at)
  }

  ghost predicate AllUsable(w: World) {
    forall c, i :: c in w.history && 0 <= i < |w.history[c]| ==> WasUsable(w, c, w.history[c][i])
  }

  /** Bundles are immutable, so what was usable at its activation still reads so. */
  lemma UsablePersists(w: World, w': World, channel: string, row: Activation, closedAt: Option<int>)
    requires WasUsable(w, channel, row) && forall k :: k in w.bundles ==> k in w'.bundles && w'.bundles[k] == w.bundles[k]
    ensures WasUsable(w', channel, row.(closedAt := closedAt))
  {
  }

  lemma AppendKeepsUsable(w: World, w': World, channel: string, id: nat, digest: string, actor: nat, at: int, cause: Cause)
    requires AllUsable(w) && w'.bundles == w.bundles
    requires w'.history == w.history[channel := Appended(Rows(w, channel), id, digest, actor, at, cause)]
    requires if cause.Bootstrapped? then Key(channel, digest) in w.bundles else Usable(w, channel, digest, at)
    ensures AllUsable(w')
  {
    forall c, i | c in w'.history && 0 <= i < |w'.history[c]| ensures WasUsable(w', c, w'.history[c][i]) {
      if c in w.history && i < |w.history[c]| {
        UsablePersists(w, w', c, w.history[c][i], w'.history[c][i].closedAt);
      }
    }
  }

  lemma BundlesGrowKeepsUsable(w: World, w': World)
    requires AllUsable(w) && w'.history == w.history && forall k :: k in w.bundles ==> k in w'.bundles && w'.bundles[k] == w.bundles[k]
    ensures AllUsable(w')
  {
    forall c, i | c in w'.history && 0 <= i < |w'.history[c]| ensures WasUsable(w', c, w'.history[c][i]) {
      UsablePersists(w, w', c, w.history[c][i], w.history[c][i].closedAt);
    }
  }

  lemma StepKeepsUsable(w: World, a: Action)
    requires AllUsable(w)
    ensures AllUsable(Step(w, a))
  {
    var w' := Step(w, a);
    if w'.history == w.history {
      BundlesGrowKeepsUsable(w, w');
    } else if a.ActivatePolicy? {
      AppendKeepsUsable(w, w', a.op.channel, a.id, a.op.resource, a.op.actor, a.op.at,
                        Administered(if a.reference.Approval? then Some(a.reference.id) else None));
    } else {
      AppendKeepsUsable(w, w', a.channel, a.id, a.digest, a.actor, a.at, if a.Bootstrap? then Bootstrapped else Stored);
    }
  }

  lemma {:induction false} RunKeepsUsable(w: World, actions: seq<Action>)
    requires AllUsable(w)
    ensures AllUsable(Run(w, actions))
    decreases |actions|
  {
    if actions != [] {
      StepKeepsUsable(w, actions[0]);
      RunKeepsUsable(Step(w, actions[0]), actions[1..]);
    }
  }

  /** Every activation but the bootstrap one is of a bundle that was validated and within its window when activated. */
  lemma OnlyUsableBundlesAreActivated(actions: seq<Action>, channel: string, i: int)
    requires channel in Run(Empty, actions).history && 0 <= i < |Run(Empty, actions).history[channel]|
    ensures var w := Run(Empty, actions);
            var row := w.history[channel][i];
            if row.cause.Bootstrapped? then Key(channel, row.digest) in w.bundles else Usable(w, channel, row.digest, row.at)
  {
    RunKeepsUsable(Empty, actions);
    assert WasUsable(Run(Empty, actions), channel, Run(Empty, actions).history[channel][i]);
  }

  /** The current policy is the last activation, exactly while its bundle is usable. */
  lemma CurrentIff(w: World, channel: string, now: int)
    requires Inv(w)
    ensures Current(w, channel, now).Some? <==>
            channel in w.history && Usable(w, channel, w.history[channel][|w.history[channel]| - 1].digest, now)
    ensures Current(w, channel, now).Some? ==> Current(w, channel, now).value == w.history[channel][|w.history[channel]| - 1]
  {
    FirstOpenIsLast(Rows(w, channel));
  }

  // ---- Exactly when an activation commits ------------------------------------------------------

  /** An unused, approved rollback approval of this actor for this very activation, at this time. */
  predicate Approvable(s: GA.Store, op: Operation, id: nat) {
    && id in s.requests && id in s.decisions && id !in s.consumptions && s.decisions[id].approved
    && s.requests[id].action == GA.PolicyRollback && s.requests[id].requester == op.actor
    && s.requests[id].digest == GA.ActivationDigest(op.channel, op.resource, op.policyVersion)
    && s.decisions[id].decidedAt <= op.at < s.requests[id].expiresAt
  }

  lemma AuthoriseIff(s: GA.Store, op: Operation, id: nat)
    requires GA.Inv(s)
    ensures Authorise(s, op, id).Some? <==> Approvable(s, op, id)
  {
    assert GA.ApprovalInv(s, id);
  }

  /** The operation names the last activation of its channel, whose bundle is usable now. */
  predicate InForce(w: World, op: Operation) {
    && op.channel in w.history && w.history[op.channel] != []
    && var last := w.history[op.channel][|w.history[op.channel]| - 1];
    last.digest == op.policyDigest && last.version == op.policyVersion && Usable(w, op.channel, last.digest, op.now)
  }

  /** And replaces it, no earlier than it began, by a target usable at that time. */
  predicate Admissible(w: World, op: Operation) {
    && op.actor != 0 && InForce(w, op) && w.history[op.channel][|w.history[op.channel]| - 1].at <= op.at
    && Usable(w, op.channel, op.resource, op.at)
  }

  predicate Referenced(w: World, op: Operation, reference: Reference) {
    if exists i :: 0 <= i < |Rows(w, op.channel)| && Rows(w, op.channel)[i].digest == op.resource
    then reference.Approval? && Approvable(w.approvals, op, reference.id)
    else reference.NotRequired?
  }

  lemma CanCloseIff(h: seq<Activation>, at: int)
    requires Chain(h) && h != []
    ensures CanClose(h, at) <==> h[|h| - 1].at <= at
  {
  }

  lemma ApprovalsIff(w: World, op: Operation, reference: Reference)
    requires Inv(w)
    ensures Approvals(w, op, reference).Some? <==> Referenced(w, op, reference)
  {
    if reference.Approval? { AuthoriseIff(w.approvals, op, reference.id); }
  }

  lemma MutationIff(w: World, op: Operation, reference: Reference, id: nat)
    requires Inv(w) && id !in w.ids
    ensures Mutation(w, op, reference, id).Some? <==>
            Usable(w, op.channel, op.resource, op.at) && Referenced(w, op, reference) && CanClose(Rows(w, op.channel), op.at)
    ensures Mutation(w, op, reference, id).Some? ==> Mutation(w, op, reference, id).value.policyEpoch == w.policyEpoch + 1
  {
    ApprovalsIff(w, op, reference);
  }

  lemma StillAuthorisedIff(w: World, op: Operation)
    requires Inv(w)
    ensures StillAuthorised(w, op) <==> InForce(w, op)
  {
    CurrentIff(w, op.channel, op.now);
    assert op.channel in w.history ==> ChannelInv(w.approvals, op.channel, w.history[op.channel]);
  }

  /**
   An activation commits exactly when its key is free, it was authorised by the policy still in force, its target
   is usable, and a bundle seen before comes with a consumable approval for this very step while a new one comes with none.
   */
  lemma ActivationCommitsIff(w: World, op: Operation, reference: Reference, id: nat)
    requires Inv(w) && op.record !in w.idempotency.used && op.owner !in w.idempotency.used && Idem.ValidResponse(op.response) && id !in w.ids
    ensures Step(w, ActivatePolicy(op, reference, id)) != w <==>
            && Idem.ValidRequest(ReplayRequest(op)) && Idem.Replaceable(w.idempotency, ReplayRequest(op), op.at)
            && Admissible(w, op) && Referenced(w, op, reference)
  {
    MutationIff(w, op, reference, id);
    StillAuthorisedIff(w, op);
    if op.channel in w.history {
      assert ChannelInv(w.approvals, op.channel, w.history[op.channel]);
      CanCloseIff(w.history[op.channel], op.at);
    }
  }

  /**
   Storing a bundle commits exactly when its key is free, it was authorised, and no bundle of that digest was
   signed otherwise; a stored bundle is never replaced.
   */
  lemma StoreCommitsIff(w: World, op: Operation, bundle: Bundle)
    requires Inv(w) && op.record !in w.idempotency.used && op.owner !in w.idempotency.used && Idem.ValidResponse(op.response)
    ensures var key, w' := Key(op.channel, op.resource), Step(w, StorePolicy(op, bundle));
            && (w' != w <==>
                  && Idem.ValidRequest(ReplayRequest(op)) && Idem.Replaceable(w.idempotency, ReplayRequest(op), op.at)
                  && op.actor != 0 && InForce(w, op) && (key in w.bundles ==> w.bundles[key].signed == bundle.signed))
            && (w' != w ==> w'.bundles == (if key in w.bundles then w.bundles else w.bundles[key := bundle]) && w'.history == w.history)
  {
    StillAuthorisedIff(w, op);
    var w' := Step(w, StorePolicy(op, bundle));
    if w' != w { assert op.record in w'.idempotency.used; }
  }

  /** The approval a rollback asks for, and the approver's answer. */
  function RollbackRequest(op: Operation, id: nat): GA.Approval {
    GA.Approval(id, op.actor, GA.PolicyRollback, GA.ActivationDigest(op.channel, op.resource, op.policyVersion), GA.Pending, 0, "",
                op.at, op.at + 1, None, None)
  }

  /** Requested and approved in the tables, an admissible rollback has its reference. */
  lemma ApprovedIsReferenced(w: World, op: Operation, approval: nat, approver: nat, reference: string, requested: World, decided: World)
    requires Inv(w) && op.actor != 0 && approval != 0 && approval !in w.approvals.requests
    requires approver != 0 && approver != op.actor && !GA.Normalize.Blank(reference) && |reference| <= 512
    requires forall other :: other in w.approvals.decisions ==> w.approvals.decisions[other].reference != reference
    requires requested == Step(w, CreateApproval(RollbackRequest(op, approval)))
    requires decided == Step(requested, RecordDecision(RollbackRequest(op, approval).(state := GA.Approved, approver := approver,
                                                                                      reference := reference, decidedAt := Some(op.at))))
    ensures Approvable(decided.approvals, op, approval)
    ensures decided == w.(approvals := decided.approvals)
  {
    assert GA.ApprovalInv(w.approvals, approval);
    assert requested.approvals.decisions == w.approvals.decisions && requested.approvals.consumptions == w.approvals.consumptions;
    assert reference != "";
  }

  /** An approval in the tables is all an admissible rollback still needs. */
  lemma ApprovedCommits(w: World, ready: World, op: Operation, id: nat, approval: nat)
    requires Inv(ready) && op.record !in w.idempotency.used && op.owner !in w.idempotency.used && Idem.ValidResponse(op.response) && id !in w.ids
    requires Idem.ValidRequest(ReplayRequest(op)) && Idem.Replaceable(w.idempotency, ReplayRequest(op), op.at)
    requires Admissible(w, op) && Activated(w.history[op.channel], op.resource)
    requires ready == w.(approvals := ready.approvals) && Approvable(ready.approvals, op, approval)
    ensures Step(ready, ActivatePolicy(op, Approval(approval), id)) != ready
  {
    ActivationCommitsIff(ready, op, Approval(approval), id);
  }

  lemma RunTwo(w: World, a: Action, b: Action)
    ensures Run(w, [a, b]) == Step(Step(w, a), b)
  {
    assert [a, b][1..] == [b] && [b][1..] == [];
    assert Run(w, [a, b]) == Run(Step(w, a), [b]) == Run(Step(Step(w, a), b), []);
  }

  /** Rollback is possible: any admissible one goes through once a second person approves it. */
  lemma RollbackCanProceed(w: World, op: Operation, id: nat, approval: nat, approver: nat, reference: string) returns (actions: seq<Action>)
    requires Inv(w) && op.record !in w.idempotency.used && op.owner !in w.idempotency.used && Idem.ValidResponse(op.response) && id !in w.ids
    requires Idem.ValidRequest(ReplayRequest(op)) && Idem.Replaceable(w.idempotency, ReplayRequest(op), op.at)
    requires Admissible(w, op) && Activated(w.history[op.channel], op.resource)
    requires approval != 0 && approval !in w.approvals.requests && approver != 0 && approver != op.actor
    requires !GA.Normalize.Blank(reference) && |reference| <= 512
    requires forall other :: other in w.approvals.decisions ==> w.approvals.decisions[other].reference != reference
    ensures var ready := Run(w, actions); Step(ready, ActivatePolicy(op, Approval(approval), id)) != ready
  {
    var request := CreateApproval(RollbackRequest(op, approval));
    var decision := RecordDecision(RollbackRequest(op, approval).(state := GA.Approved, approver := approver,
                                                                  reference := reference, decidedAt := Some(op.at)));
    var requested := Step(w, request);
    var ready := Step(requested, decision);
    ApprovedIsReferenced(w, op, approval, approver, reference, requested, ready);
    actions := [request, decision];
    RunTwo(w, request, decision);
    RunKeepsInv(w, actions);
    ApprovedCommits(w, ready, op, id, approval);
  }

  // ---- Identifiers -----------------------------------------------------------------------------

  ghost predicate RowAt(w: World, c: string, i: int) {
    c in w.history && 0 <= i < |w.history[c]|
  }

  ghost predicate IdsUnique(w: World) {
    && (forall c, i :: RowAt(w, c, i) ==> w.history[c][i].id in w.ids)
    && (forall c, i, d, j :: RowAt(w, c, i) && RowAt(w, d, j) && w.history[c][i].id == w.history[d][j].id ==> c == d && i == j)
  }

  lemma AppendKeepsIds(w: World, w': World, channel: string, id: nat, digest: string, actor: nat, at: int, cause: Cause)
    requires IdsUnique(w) && id !in w.ids && w'.ids == w.ids + {id}
    requires w'.history == w.history[channel := Appended(Rows(w, channel), id, digest, actor, at, cause)]
    ensures IdsUnique(w')
  {
    forall c, i | RowAt(w', c, i)
      ensures if RowAt(w, c, i) then w'.history[c][i].id == w.history[c][i].id
              else c == channel && i == |Rows(w, channel)| && w'.history[c][i].id == id
    {
    }
  }

  lemma StepKeepsIds(w: World, a: Action)
    requires IdsUnique(w)
    ensures IdsUnique(Step(w, a))
  {
    var w' := Step(w, a);
    if w'.history == w.history {
      assert forall c, i :: RowAt(w', c, i) <==> RowAt(w, c, i);
    } else if a.ActivatePolicy? {
      AppendKeepsIds(w, w', a.op.channel, a.id, a.op.resource, a.op.actor, a.op.at,
                     Administered(if a.reference.Approval? then Some(a.reference.id) else None));
    } else {
      AppendKeepsIds(w, w', a.channel, a.id, a.digest, a.actor, a.at, if a.Bootstrap? then Bootstrapped else Stored);
    }
  }

  lemma {:induction false} RunKeepsIds(w: World, actions: seq<Action>)
    requires IdsUnique(w)
    ensures IdsUnique(Run(w, actions))
    decreases |actions|
  {
    if actions != [] {
      StepKeepsIds(w, actions[0]);
      RunKeepsIds(Step(w, actions[0]), actions[1..]);
    }
  }

  /** An activation ID names one activation, of one channel, for good. */
  lemma ActivationIdsAreUnique(actions: seq<Action>, c: string, i: int, d: string, j: int)
    requires RowAt(Run(Empty, actions), c, i) && RowAt(Run(Empty, actions), d, j)
    ensures var h := Run(Empty, actions).history; h[c][i].id == h[d][j].id <==> c == d && i == j
  {
    RunKeepsIds(Empty, actions);
  }

  // ---- Replay ----------------------------------------------------------------------------------

  /** The idempotency steps inside a run of administrative steps. */
  function Commits(w: World, actions: seq<Action>): seq<Idem.Action>
    decreases |actions|
  {
    if actions == [] then []
    else
      var rest := Commits(Step(w, actions[0]), actions[1..]);
      match actions[0]
      case StorePolicy(op, bundle) =>
        [Commit(op, op.actor != 0 && StillAuthorised(w, op) && StoredBundle(w, op, bundle).Some?)] + rest
      case ActivatePolicy(op, reference, id) =>
        [Commit(op, op.actor != 0 && StillAuthorised(w, op) && Mutation(w, op, reference, id).Some?)] + rest
      case _ => rest
  }

  lemma {:induction false} ReplayTableProjects(w: World, actions: seq<Action>)
    ensures Run(w, actions).idempotency == Idem.Run(w.idempotency, Commits(w, actions))
    decreases |actions|
  {
    if actions != [] {
      var rest := Commits(Step(w, actions[0]), actions[1..]);
      ReplayTableProjects(Step(w, actions[0]), actions[1..]);
      match actions[0]
      case StorePolicy(op, bundle) =>
        assert Commits(w, actions)[1..] == rest;
      case ActivatePolicy(op, reference, id) =>
        assert Commits(w, actions)[1..] == rest;
      case _ =>
    }
  }

  /** Within the replay window, whatever else happens, repeating a committed operation changes nothing. */
  lemma CommittedOnce(w: World, first: Action, between: seq<Action>, again: Action)
    requires (first.ActivatePolicy? || first.StorePolicy?) && (again.ActivatePolicy? || again.StorePolicy?)
    requires Step(w, first).idempotency != w.idempotency
    requires ReplayRequest(again.op).slot == ReplayRequest(first.op).slot && again.op.at < first.op.at + Day
    requires forall i :: 0 <= i < |between| && (between[i].ActivatePolicy? || between[i].StorePolicy?) ==>
               between[i].op.at < first.op.at + Day
    ensures var w' := Run(Step(w, first), between); Step(w', again) == w'
  {
    var w1 := Step(w, first);
    var slot := ReplayRequest(first.op).slot;
    ReplayTableProjects(w1, between);
    CommitsAreEarly(w1, between, slot, first.op.at + Day);
    Idem.CompletedIsReplayed(w1.idempotency, Commits(w1, between), ReplayRequest(again.op), again.op.at);
  }

  lemma {:induction false} CommitsAreEarly(w: World, actions: seq<Action>, slot: Idem.Slot, time: int)
    requires forall i :: 0 <= i < |actions| && (actions[i].ActivatePolicy? || actions[i].StorePolicy?) ==> actions[i].op.at < time
    ensures Idem.NoneAcquiresAfter(Commits(w, actions), slot, time)
    decreases |actions|
  {
    if actions != [] { CommitsAreEarly(Step(w, actions[0]), actions[1..], slot, time); }
  }

  // ---- The repository and the evaluator --------------------------------------------------------

  /** Acquiring a record and completing it in one transaction leaves the record a committed operation has. */
  lemma AcquireThenComplete(t: Idem.Table, op: Operation)
    requires Idem.Inv(t) && Idem.Enabled(t, Commit(op, true))
    ensures var r := ReplayRequest(op);
            var acquired := Idem.Step(t, Idem.Acquire(r, op.at, op.record, op.owner));
            && Idem.Enabled(acquired, Idem.Complete(op.record, op.owner, op.response, op.at))
            && Idem.Step(acquired, Idem.Complete(op.record, op.owner, op.response, op.at)) == Idem.Step(t, Commit(op, true))
  {
  }

  datatype Outcome = Committed(activation: Activation) | Replayed(response: Idem.Response) | Rejected

  class TenantRepository {
    var world: World

    ghost predicate Valid()
      reads this
    {
      Inv(world) && Idem.Inv(world.idempotency)
    }

    constructor ()
      ensures Valid() && world == Empty
    {
      world := Empty;
    }

    /** The statements of the activation, on the transaction's own view; an error leaves it to be rolled back. */
    method Mutate(tx: World, op: Operation, reference: Reference, id: nat) returns (result: Option<World>)
      ensures result == Mutation(tx, op, reference, id)
    {
      var view := tx;
      var key := Key(op.channel, op.resource);
      if key !in view.bundles || !view.bundles[key].validated { return None; }
      if !InWindow(view.bundles[key], op.at) { return None; }
      var rollback := exists i :: 0 <= i < |Rows(view, op.channel)| && Rows(view, op.channel)[i].digest == op.resource;
      if rollback {
        if !reference.Approval? { return None; }
        var approval := GA.Read(view.approvals, reference.id);
        if approval.None? || approval.value.action != GA.PolicyRollback || approval.value.requester != op.actor { return None; }
        var consumed := GA.ConsumeApproval(view.approvals, reference.id, GA.ActivationDigest(op.channel, op.resource, op.policyVersion), op.at);
        if consumed.None? { return None; }
        view := view.(approvals := consumed.value);
      } else if !reference.NotRequired? {
        return None;
      }
      var rows := Rows(view, op.channel);
      if !CanClose(rows, op.at) { return None; }
      var version := MaxVersion(rows) + 1;
      if id in view.ids { return None; }
      var cause := Administered(if rollback then Some(reference.id) else None);
      var row := Activation(id, op.resource, version, op.actor, op.at, None, cause);
      view := view.(history := view.history[op.channel := seq(|rows|, i requires 0 <= i < |rows| => Closed(rows[i], op.at)) + [row]],
                    ids := view.ids + {id});
      view := view.(policyEpoch := view.policyEpoch + 1);
      result := Some(view);
    }

    /** One transaction: replay record, re-check of the authorising policy, mutation, completion. */
    method ActivatePolicy(op: Operation, reference: Reference, id: nat) returns (outcome: Outcome)
      requires Valid() && op.record !in world.idempotency.used && op.owner !in world.idempotency.used && Idem.ValidResponse(op.response)
      modifies this
      ensures Valid() && world == Step(old(world), Action.ActivatePolicy(op, reference, id))
      ensures outcome.Committed? <==> world != old(world)
      ensures outcome.Committed? ==>
                && op.channel in world.history
                && outcome.activation == world.history[op.channel][|world.history[op.channel]| - 1]
                && outcome.activation.version == op.policyVersion + 1 && outcome.activation.digest == op.resource
                && outcome.activation.actor == op.actor && outcome.activation.at == op.at && outcome.activation.id == id
                && world.policyEpoch == old(world).policyEpoch + 1
      ensures var slot := Idem.Slot(op.actor, op.action + ":" + op.resource, op.key);
              outcome.Replayed? <==>
                && op.actor != 0 && Idem.ValidRequest(ReplayRequest(op)) && slot in old(world).idempotency.records
                && var x := old(world).idempotency.records[slot];
                x.state.Completed? && x.hash == op.hash && op.at < x.expiresAt
      ensures outcome.Replayed? ==>
                outcome.response == old(world).idempotency.records[Idem.Slot(op.actor, op.action + ":" + op.resource, op.key)].state.response
    {
      StepKeepsInv(world, Action.ActivatePolicy(op, reference, id));
      Idem.StepKeepsInv(world.idempotency, Commit(op, true));
      if op.actor == 0 { return Rejected; }
      var request := ReplayRequest(op);
      if !Idem.ValidRequest(request) { return Rejected; }
      if !Idem.Replaceable(world.idempotency, request, op.at) {
        var found := Idem.Classify(world.idempotency.records[request.slot], request.hash);
        return if found.Replay? then Replayed(found.response) else Rejected;
      }
      var acquired := Idem.Step(world.idempotency, Idem.Acquire(request, op.at, op.record, op.owner));
      var active := Current(world, op.channel, op.now);
      if active.None? || active.value.digest != op.policyDigest || active.value.version != op.policyVersion { return Rejected; }
      CurrentIsLast(world, op.channel, op.now);
      MaxVersionIsLength(Rows(world, op.channel));
      var mutated := Mutate(world, op, reference, id);
      if mutated.None? { return Rejected; }
      AcquireThenComplete(world.idempotency, op);
      world := mutated.value.(idempotency := Idem.Step(acquired, Idem.Complete(op.record, op.owner, op.response, op.at)));
      outcome := Committed(world.history[op.channel][|world.history[op.channel]| - 1]);
    }

    /**
     The evaluator's optimistic double read; `others` is everything other sessions do while the
     decision is computed. A result means one activation was open from the first read to the second.
     */
    method EvaluateUnderOnePolicy(channel: string, before: int, others: seq<Action>, after: int) returns (active: Option<Activation>)
      requires Valid()
      modifies this
      ensures world == Run(old(world), others)
      ensures active.Some? ==> forall k :: 0 <= k <= |others| ==> FirstOpen(Rows(Run(old(world), others[..k]), channel)) == active
      ensures active.Some? <==> Current(old(world), channel, before).Some? && Current(world, channel, after) == Current(old(world), channel, before)
    {
      ghost var start := world;
      var first := Current(world, channel, before);
      if first.None? { world := Run(world, others); return None; }
      world := Run(world, others);
      var second := Current(world, channel, after);
      if second.None? || second.value.version != first.value.version || second.value.digest != first.value.digest { return None; }
      NoABA(start, others, channel, before, after, 0);
      forall k | 0 <= k <= |others| ensures FirstOpen(Rows(Run(start, others[..k]), channel)) == first {
        NoABA(start, others, channel, before, after, k);
      }
      active := first;
    }
  }
}
