/**
 Idempotency records of one tenant: who owns a key, when a response is replayed, and how often the
 work behind a key can commit. A slot is principal, route and key; clocks are the callers' own.
 */
module Idempotency {
  import opened Base

  datatype Slot = Slot(principal: nat, route: string, key: string)

  datatype Response = Response(status: int, headers: Option<string>, body: string)

  datatype State = InProgress | Completed(response: Response) | Failed

  datatype Record = Record(id: nat, hash: string, state: State, owner: nat, lockedUntil: int, createdAt: int, expiresAt: int)

  /** `used` are the identifiers generated so far: record IDs and owner tokens are never drawn twice. */
  datatype Table = Table(records: map<Slot, Record>, used: set<nat>)

  datatype Request = Request(slot: Slot, hash: string, lease: int, ttl: int)

  datatype Outcome = Acquired(id: nat, owner: nat) | Replay(response: Response) | Conflict | InFlight

  predicate ValidRequest(r: Request) {
    && 1 <= |r.slot.route| <= 256 && 1 <= |r.slot.key| <= 256
    && 0 < r.lease <= r.ttl
  }

  /** `headers` is None when the stored text is not a JSON object. */
  predicate ValidResponse(r: Response) {
    100 <= r.status <= 599 && r.headers.Some?
  }

  /** The condition of the upsert: no row, an expired row, or abandoned work for the same request. */
  predicate Replaceable(t: Table, r: Request, now: int) {
    r.slot !in t.records ||
    var x := t.records[r.slot];
    x.expiresAt <= now || (x.hash == r.hash && (x.state.Failed? || (x.state.InProgress? && x.lockedUntil <= now)))
  }

  /** What a reader that does not own the row makes of it. */
  function Classify(x: Record, hash: string): Outcome {
    if x.hash != hash then Conflict
    else if x.state.Completed? then Replay(x.state.response)
    else InFlight
  }

  predicate Owned(x: Record, id: nat, owner: nat) {
    x.id == id && x.owner == owner && x.state.InProgress?
  }

  datatype Action =
    | Acquire(request: Request, now: int, id: nat, owner: nat)
    | Complete(id: nat, owner: nat, response: Response, now: int)
    | Fail(id: nat, owner: nat, now: int)
    /** A transaction that acquires, mutates and completes; `mutates` is whether its mutation succeeds. */
    | Transact(request: Request, now: int, id: nat, owner: nat, response: Response, mutates: bool)

  predicate Enabled(t: Table, a: Action) {
    match a
    case Acquire(r, now, id, owner) =>
      ValidRequest(r) && id !in t.used && owner !in t.used && Replaceable(t, r, now)
    case Complete(id, owner, response, now) =>
      ValidResponse(response) && forall s :: s in t.records && Owned(t.records[s], id, owner) ==> t.records[s].createdAt <= now
    case Fail(_, _, _) => true
    case Transact(r, now, id, owner, response, mutates) =>
      ValidRequest(r) && id !in t.used && owner !in t.used && Replaceable(t, r, now) && ValidResponse(response) && mutates
  }

  function Settle(t: Table, id: nat, owner: nat, state: State, now: int): Table {
    t.(records := map s | s in t.records ::
         if Owned(t.records[s], id, owner) then t.records[s].(state := state, lockedUntil := now) else t.records[s])
  }

  function Step(t: Table, a: Action): Table {
    if !Enabled(t, a) then t
    else
      match a
      case Acquire(r, now, id, owner) =>
        Table(t.records[r.slot := Record(id, r.hash, InProgress, owner, now + r.lease, now, now + r.ttl)], t.used + {id, owner})
      case Complete(id, owner, response, now) => Settle(t, id, owner, Completed(response), now)
      case Fail(id, owner, now) => Settle(t, id, owner, Failed, now)
      case Transact(r, now, id, owner, response, _) =>
        Table(t.records[r.slot := Record(id, r.hash, Completed(response), owner, now, now, now + r.ttl)], t.used + {id, owner})
  }

  function Run(t: Table, actions: seq<Action>): Table
    decreases |actions|
  {
    if actions == [] then t else Run(Step(t, actions[0]), actions[1..])
  }

  const Empty := Table(map[], {})

  ghost predicate Inv(t: Table) {
    && (forall s :: s in t.records ==> t.records[s].id in t.used && t.records[s].owner in t.used && ValidRequestSlot(s))
    && (forall s, u :: s in t.records && u in t.records && t.records[s].id == t.records[u].id ==> s == u)
    && (forall s :: s in t.records && t.records[s].state.Completed? ==> ValidResponse(t.records[s].state.response))
  }

  predicate ValidRequestSlot(s: Slot) {
    1 <= |s.route| <= 256 && 1 <= |s.key| <= 256
  }

  lemma StepKeepsInv(t: Table, a: Action)
    requires Inv(t)
    ensures Inv(Step(t, a)) && t.used <= Step(t, a).used
  {
  }

  lemma {:induction false} RunKeepsInv(t: Table, actions: seq<Action>)
    requires Inv(t)
    ensures Inv(Run(t, actions)) && t.used <= Run(t, actions).used
    decreases |actions|
  {
    if actions != [] {
      StepKeepsInv(t, actions[0]);
      RunKeepsInv(Step(t, actions[0]), actions[1..]);
    }
  }

  // ---- Ownership -------------------------------------------------------------------------------

  ghost predicate Owns(t: Table, id: nat, owner: nat) {
    exists s :: s in t.records && Owned(t.records[s], id, owner)
  }

  /** An acquisition that no longer owns its record never owns one again. */
  lemma {:induction false} LostOwnershipStaysLost(t: Table, actions: seq<Action>, id: nat, owner: nat)
    requires id in t.used && !Owns(t, id, owner)
    ensures !Owns(Run(t, actions), id, owner)
    decreases |actions|
  {
    if actions != [] { LostOwnershipStaysLost(Step(t, actions[0]), actions[1..], id, owner); }
  }

  /** A stale owner changes nothing, however late it acts. */
  lemma StaleOwnersFail(t: Table, actions: seq<Action>, id: nat, owner: nat, response: Response, now: int)
    requires id in t.used && !Owns(t, id, owner)
    ensures var t' := Run(t, actions);
            Step(t', Complete(id, owner, response, now)) == t' && Step(t', Fail(id, owner, now)) == t'
  {
    LostOwnershipStaysLost(t, actions, id, owner);
    var t' := Run(t, actions);
    assert Settle(t', id, owner, Completed(response), now).records == t'.records;
    assert Settle(t', id, owner, Failed, now).records == t'.records;
  }

  /** One acquisition settles at most once: after its completion or failure it has no further effect. */
  lemma SettlesAtMostOnce(t: Table, a: Action, actions: seq<Action>, response: Response, now: int)
    requires Inv(t) && (a.Complete? || a.Fail?) && Enabled(t, a) && Owns(t, a.id, a.owner)
    ensures var t' := Run(Step(t, a), actions);
            Step(t', Complete(a.id, a.owner, response, now)) == t' && Step(t', Fail(a.id, a.owner, now)) == t'
  {
    StaleOwnersFail(Step(t, a), actions, a.id, a.owner, response, now);
  }

  /** Ownership is one to one: at most one acquisition can still settle a slot, and each can settle at most one slot. */
  lemma OwnershipIsOneToOne(actions: seq<Action>, s: Slot, id: nat, owner: nat, u: Slot, id': nat, owner': nat)
    requires var t := Run(Empty, actions);
             s in t.records && u in t.records && Owned(t.records[s], id, owner) && Owned(t.records[u], id', owner')
    ensures s == u <==> id == id' && owner == owner'
  {
    RunKeepsInv(Empty, actions);
  }

  // ---- Leases ----------------------------------------------------------------------------------

  predicate SettlesFor(a: Action, id: nat, owner: nat) {
    (a.Complete? || a.Fail?) && a.id == id && a.owner == owner
  }

  /** Nobody takes this slot at or after the given time, and its owner has not settled yet. */
  ghost predicate Undisturbed(actions: seq<Action>, slot: Slot, time: int, id: nat, owner: nat) {
    forall i :: 0 <= i < |actions| ==> !AcquiresAfter(actions[i], slot, time) && !SettlesFor(actions[i], id, owner)
  }

  lemma {:induction false} OwnedStays(t: Table, actions: seq<Action>, slot: Slot)
    requires slot in t.records && t.records[slot].state.InProgress? && t.records[slot].lockedUntil <= t.records[slot].expiresAt
    requires Undisturbed(actions, slot, t.records[slot].lockedUntil, t.records[slot].id, t.records[slot].owner)
    ensures slot in Run(t, actions).records && Run(t, actions).records[slot] == t.records[slot]
    decreases |actions|
  {
    if actions != [] {
      var x := t.records[slot];
      assert !AcquiresAfter(actions[0], slot, x.lockedUntil) && !SettlesFor(actions[0], x.id, x.owner);
      assert Step(t, actions[0]).records[slot] == x;
      assert forall i :: 0 <= i < |actions| - 1 ==> actions[1..][i] == actions[i + 1];
      OwnedStays(Step(t, actions[0]), actions[1..], slot);
    }
  }

  /**
   A lease is respected: work acquired at a time for a lease stays its owner's, however many others try before
   the lease ends. A later request gets the slot exactly once the lease has run out, if it is the same
   request, or once the record has expired, if it is any other.
   */
  lemma LeaseIsRespected(t: Table, r: Request, now: int, id: nat, owner: nat, others: seq<Action>, again: Request, later: int)
    requires Enabled(t, Acquire(r, now, id, owner)) && again.slot == r.slot
    requires Undisturbed(others, r.slot, now + r.lease, id, owner)
    ensures var t' := Run(Step(t, Acquire(r, now, id, owner)), others);
            && r.slot in t'.records && Owned(t'.records[r.slot], id, owner) && t'.records[r.slot].hash == r.hash
            && (Replaceable(t', again, later) <==> later >= now + r.ttl || (again.hash == r.hash && later >= now + r.lease))
            && (!Replaceable(t', again, later) ==>
                  Classify(t'.records[r.slot], again.hash) == if again.hash == r.hash then InFlight else Conflict)
  {
    OwnedStays(Step(t, Acquire(r, now, id, owner)), others, r.slot);
  }

  /** Failed work may be taken up again at once by the same request, and by any other only after expiry. */
  lemma FailedIsRetryable(t: Table, slot: Slot, id: nat, owner: nat, now: int, again: Request, later: int)
    requires Inv(t) && slot in t.records && Owned(t.records[slot], id, owner) && again.slot == slot
    ensures var t' := Step(t, Fail(id, owner, now));
            Replaceable(t', again, later) <==> again.hash == t.records[slot].hash || later >= t.records[slot].expiresAt
  {
  }

  // ---- Replay ----------------------------------------------------------------------------------

  /** The action acquires this slot at or after the given time. */
  predicate AcquiresAfter(a: Action, slot: Slot, time: int) {
    (a.Acquire? || a.Transact?) && a.request.slot == slot && a.now >= time
  }

  ghost predicate NoneAcquiresAfter(actions: seq<Action>, slot: Slot, time: int) {
    forall i :: 0 <= i < |actions| ==> !AcquiresAfter(actions[i], slot, time)
  }

  /** A completed record stays byte for byte until an acquire at or after its expiry. */
  lemma {:induction false} CompletedIsStable(t: Table, actions: seq<Action>, slot: Slot)
    requires slot in t.records && t.records[slot].state.Completed?
    requires NoneAcquiresAfter(actions, slot, t.records[slot].expiresAt)
    ensures slot in Run(t, actions).records && Run(t, actions).records[slot] == t.records[slot]
    decreases |actions|
  {
    if actions != [] {
      assert !AcquiresAfter(actions[0], slot, t.records[slot].expiresAt);
      assert Step(t, actions[0]).records[slot] == t.records[slot];
      assert forall i :: 0 <= i < |actions| - 1 ==> actions[1..][i] == actions[i + 1];
      CompletedIsStable(Step(t, actions[0]), actions[1..], slot);
    }
  }

  /** In that time the same request replays the stored response and any other request conflicts. */
  lemma CompletedIsReplayed(t: Table, actions: seq<Action>, r: Request, now: int)
    requires r.slot in t.records && t.records[r.slot].state.Completed?
    requires NoneAcquiresAfter(actions, r.slot, t.records[r.slot].expiresAt) && now < t.records[r.slot].expiresAt
    ensures var t' := Run(t, actions);
            && !Replaceable(t', r, now)
            && Classify(t'.records[r.slot], r.hash) ==
               if r.hash == t.records[r.slot].hash then Replay(t.records[r.slot].state.response) else Conflict
  {
    CompletedIsStable(t, actions, r.slot);
  }

  // ---- At most once ----------------------------------------------------------------------------

  /** The action commits work for the slot: it completes the record there. */
  ghost predicate Commits(t: Table, a: Action, slot: Slot) {
    && Enabled(t, a)
    && ((a.Complete? && slot in t.records && Owned(t.records[slot], a.id, a.owner)) || (a.Transact? && a.request.slot == slot))
  }

  /** Two commits for one slot are separated by an acquire at or after the first one's expiry. */
  lemma CommitsAreAWindowApart(t: Table, first: Action, between: seq<Action>, second: Action, slot: Slot)
    requires Commits(t, first, slot)
    requires Commits(Run(Step(t, first), between), second, slot)
    ensures slot in Step(t, first).records
    ensures exists i :: 0 <= i <= |between| &&
              AcquiresAfter((between + [second])[i], slot, Step(t, first).records[slot].expiresAt)
  {
    var t1 := Step(t, first);
    var all := between + [second];
    assert all[|between|] == second;
    if NoneAcquiresAfter(all, slot, t1.records[slot].expiresAt) {
      assert NoneAcquiresAfter(between, slot, t1.records[slot].expiresAt) by {
        assert forall i :: 0 <= i < |between| ==> all[i] == between[i];
      }
      CompletedIsStable(t1, between, slot);
      assert false;
    }
  }

  // ---- The repository --------------------------------------------------------------------------

  /** The conditional update touches the one row its record ID names. */
  lemma SettleUpdatesOne(t: Table, s: Slot, id: nat, owner: nat, state: State, now: int)
    requires Inv(t) && s in t.records && Owned(t.records[s], id, owner)
    ensures Settle(t, id, owner, state, now) == t.(records := t.records[s := t.records[s].(state := state, lockedUntil := now)])
    ensures forall u :: u in t.records && Owned(t.records[u], id, owner) ==> u == s
  {
    assert Settle(t, id, owner, state, now).records == t.records[s := t.records[s].(state := state, lockedUntil := now)];
  }

  /** Exactly when an acquisition takes a slot: a well-formed request, and nothing live in its way. */
  lemma AcquiresIff(t: Table, r: Request, now: int, id: nat, owner: nat)
    requires id !in t.used && owner !in t.used
    ensures Step(t, Acquire(r, now, id, owner)) != t <==>
            && 1 <= |r.slot.route| <= 256 && 1 <= |r.slot.key| <= 256 && r.lease > 0 && r.ttl >= r.lease
            && (r.slot in t.records ==>
                  var x := t.records[r.slot];
                  now >= x.expiresAt || (x.hash == r.hash && (x.state.Failed? || (x.state.InProgress? && now >= x.lockedUntil))))
  {
    if Enabled(t, Acquire(r, now, id, owner)) { assert id in Step(t, Acquire(r, now, id, owner)).used; }
  }

  /** The owner's completion stores exactly a well-formed response, not dated before the acquisition, in its own slot. */
  lemma CompletionStores(t: Table, slot: Slot, id: nat, owner: nat, response: Response, now: int)
    requires Inv(t) && slot in t.records && Owned(t.records[slot], id, owner)
    ensures Step(t, Complete(id, owner, response, now)) ==
            if 100 <= response.status < 600 && response.headers.Some? && t.records[slot].createdAt <= now
            then t.(records := t.records[slot := t.records[slot].(state := Completed(response), lockedUntil := now)])
            else t
  {
    SettleUpdatesOne(t, slot, id, owner, Completed(response), now);
    assert forall s :: s in t.records && Owned(t.records[s], id, owner) ==> s == slot;
  }

  class TenantRepository {
    var table: Table

    ghost predicate Valid()
      reads this
    {
      Inv(table)
    }

    constructor ()
      ensures Valid() && table == Empty
    {
      table := Empty;
    }

    /**
     The upsert, then, if it touched no row, a plain read of the row; `others` is what other sessions do
     between the two statements. A missing row at that point is an error.
     */
    method AcquireIdempotency(r: Request, now: int, id: nat, owner: nat, others: seq<Action>) returns (outcome: Result<Outcome, string>)
      requires Valid() && id !in table.used && owner !in table.used
      modifies this
      ensures Valid()
      ensures outcome.Err? ==> !ValidRequest(r)
      ensures !ValidRequest(r) ==> outcome.Err? && table == old(table)
      ensures ValidRequest(r) && Replaceable(old(table), r, now) ==>
                outcome == Ok(Acquired(id, owner)) && table == Step(old(table), Acquire(r, now, id, owner))
      ensures ValidRequest(r) && !Replaceable(old(table), r, now) ==>
                && table == Run(old(table), others)
                && r.slot in table.records && outcome == Ok(Classify(table.records[r.slot], r.hash))
    {
      if !ValidRequest(r) { return Err("invalid idempotency request"); }
      StepKeepsInv(table, Acquire(r, now, id, owner));
      if Replaceable(table, r, now) {
        table := Step(table, Acquire(r, now, id, owner));
        return Ok(Acquired(id, owner));
      }
      RunKeepsInv(table, others);
      SlotsAreKept(table, others, r.slot);
      table := Run(table, others);
      outcome := Ok(Classify(table.records[r.slot], r.hash));
    }

    method CompleteIdempotency(id: nat, owner: nat, response: Response, now: int) returns (ok: bool)
      requires Valid()
      modifies this
      ensures Valid()
      ensures ok <==> Owns(old(table), id, owner) && Enabled(old(table), Complete(id, owner, response, now))
      ensures table == if ok then Step(old(table), Complete(id, owner, response, now)) else old(table)
    {
      StepKeepsInv(table, Complete(id, owner, response, now));
      if response.status < 100 || response.status > 599 || response.headers.None? { return false; }
      if s :| s in table.records && table.records[s].id == id && table.records[s].owner == owner && table.records[s].state.InProgress? {
        SettleUpdatesOne(table, s, id, owner, Completed(response), now);
        if table.records[s].createdAt > now { return false; }
        table := table.(records := table.records[s := table.records[s].(state := Completed(response), lockedUntil := now)]);
        ok := true;
      } else {
        ok := false;
      }
    }

    method FailIdempotency(id: nat, owner: nat, now: int) returns (ok: bool)
      requires Valid()
      modifies this
      ensures Valid()
      ensures ok <==> Owns(old(table), id, owner)
      ensures table == if ok then Step(old(table), Fail(id, owner, now)) else old(table)
    {
      StepKeepsInv(table, Fail(id, owner, now));
      if s :| s in table.records && table.records[s].id == id && table.records[s].owner == owner && table.records[s].state.InProgress? {
        SettleUpdatesOne(table, s, id, owner, Failed, now);
        table := table.(records := table.records[s := table.records[s].(state := Failed, lockedUntil := now)]);
        ok := true;
      } else {
        ok := false;
      }
    }
  }

  lemma {:induction false} SlotsAreKept(t: Table, actions: seq<Action>, slot: Slot)
    requires slot in t.records
    ensures slot in Run(t, actions).records
    decreases |actions|
  {
    if actions != [] { SlotsAreKept(Step(t, actions[0]), actions[1..], slot); }
  }
}
